/**
  Runs of the Home outbox: any number of windows over one device, opened, closed and crashed at
  will, a storage that may refuse any read or write, a network that may lose, delay or repeat
  any request or response, and a server that answers a key it knows with the record it has
  (internal/server/authoring.go:200-214, internal/server/agent_runs.go:26-49).
 */
module HomeRuns {
  import opened Options
  import opened Text
  import opened HomeOutbox

  // What happened, oldest first. `held` is what the device's slot contained at that moment.
  datatype Event =
    | Typed
    | Minted(key: string)
    | Posted(key: string, path: string, body: Body, held: Option<HomeSubmission>)
    | Confirmed(key: string)
    | Forgot(key: string)
    | ForgotNothing

  datatype Post = Post(key: string, path: string, body: Body)

  // `minted` remembers which submission each generated key was made for.
  datatype World = World(
    device: Device, windows: map<nat, Window>, posts: seq<Post>, records: map<string, Record>,
    minted: map<string, HomeSubmission>, log: seq<Event>)

  datatype Step =
    | Open(w: nat, readable: bool, draftReadable: bool, promptReadable: bool)
    | Crash(w: nat)
    | Type(w: nat, prompt: string)
    | Pick(w: nat, mode: Mode, agentID: string)
    | SaveDraft(w: nat, draftOk: bool, promptOk: bool)
    | Submit(w: nat, key: string, permitted: bool, writable: bool)
    | Deliver(index: nat, id: string)
    | Answer(w: nat, writes: nat, crash: bool)
    | NoAnswer(w: nat)
    | Forget(w: nat, writable: bool)
    | Retry(w: nat, readable: bool)

  function Next(w: World, step: Step): World {
    match step
    case Open(n, readable, draftReadable, promptReadable) =>
      if n in w.windows then w
      else w.(windows := w.windows[n := Opened(w.device, readable, draftReadable, promptReadable)])
    case Deliver(index, id) =>
      if index < |w.posts| && id != "" && w.posts[index].key !in w.records then
        var p := w.posts[index];
        w.(records := w.records[p.key := Record(id, p.path, p.body)])
      else w
    case _ => if step.w !in w.windows then w else WindowStep(w, step.w, w.windows[step.w], step)
  }

  function WindowStep(w: World, n: nat, win: Window, step: Step): World
    requires n in w.windows
  {
    match step
    case Crash(_) => w.(windows := w.windows - {n})
    case Type(_, prompt) =>
      if win.pending.Some? then w
      else w.(windows := w.windows[n := win.(prompt := prompt)], log := w.log + [Typed])
    case Pick(_, mode, agentID) =>
      if win.pending.Some? then w else w.(windows := w.windows[n := win.(mode := mode, agentID := agentID)])
    case SaveDraft(_, draftOk, promptOk) =>
      w.(device := w.device.(
           draft := if draftOk then Some(Composed(win)) else w.device.draft,
           prompt := if !promptOk then w.device.prompt else if win.prompt == "" then None else Some(win.prompt)))
    case Submit(_, key, permitted, writable) => Sent(w, n, key, Submitted(w.device, win, key, permitted, writable))
    case Answer(_, writes, crash) =>
      if win.flight.None? || win.flight.value.key !in w.records then w
      else
        var sent := win.flight.value;
        var out := Answered(w.device, win, w.records[sent.key], writes);
        w.(device := out.device,
           windows := if crash then w.windows - {n} else w.windows[n := out.window],
           log := if w.device.submission == Some(sent) && out.device.submission.None? then w.log + [Confirmed(sent.key)]
             else w.log)
    case NoAnswer(_) => w.(windows := w.windows[n := win.(flight := None)])
    case Forget(_, writable) =>
      if !CanForget(w.device, win, writable) then w
      else
        var out := Forgotten(w.device, win, writable);
        w.(device := out.device, windows := w.windows[n := out.window],
           log := w.log + [if w.device.submission.Some? then Forgot(w.device.submission.value.key) else ForgotNothing])
    case Retry(_, readable) => w.(windows := w.windows[n := Recovered(w.device, win, readable)])
    case _ => w
  }

  // A generated key is well formed and new; one that no request went out for is not remembered.
  function Sent(w: World, n: nat, key: string, out: Outcome): World
    requires n in w.windows
  {
    if out.sent.None? then w
    else
      var s := out.sent.value;
      if s.key in w.minted && w.windows[n].pending.None? then w
      else if !UuidShaped(s.key) then w
      else
        var posted := Posted(s.key, s.path, s.body, out.device.submission);
        w.(device := out.device, windows := w.windows[n := out.window],
           posts := w.posts + [Post(s.key, s.path, s.body)],
           minted := w.minted[s.key := s],
           log := w.log + if w.windows[n].pending.None? then [Minted(s.key), posted] else [posted])
  }

  function Run(w: World, steps: seq<Step>): World {
    if steps == [] then w else Next(Run(w, steps[..|steps| - 1]), steps[|steps| - 1])
  }

  // A device in any state, no window open; a submission may be left over from earlier.
  predicate Start(w: World) {
    w.windows == map[] && w.posts == [] && w.records == map[] && w.log == [] &&
    w.minted == if w.device.submission.Some? then map[w.device.submission.value.key := w.device.submission.value]
      else map[]
  }

  // ---------------------------------------------------------------- one submission at a time

  predicate Releases(e: Event, key: string) {
    (e.Confirmed? && e.key == key) || (e.Forgot? && e.key == key)
  }

  predicate Released(log: seq<Event>, from: nat, key: string) {
    exists m :: from < m < |log| && Releases(log[m], key)
  }

  predicate Known(w: World, s: HomeSubmission) {
    s.key in w.minted && w.minted[s.key] == s
  }

  predicate WindowOk(w: World, win: Window) {
    (win.pending.Some? ==> Known(w, win.pending.value) && Acceptable(win.pending.value)) &&
    (win.flight.Some? ==> win.flight == win.pending) && (win.blocked ==> win.pending.None?)
  }

  predicate PostOk(w: World, key: string, path: string, body: Body) {
    key in w.minted && path == RequestFor(w.minted[key].draft).path && body == RequestFor(w.minted[key].draft).body
  }

  predicate EventOk(w: World, e: Event) {
    e.Posted? ==> PostOk(w, e.key, e.path, e.body) && e.held == Some(w.minted[e.key])
  }

  // A posted key is still in the slot, unless it was confirmed or forgotten since.
  predicate Guarded(w: World) {
    forall i :: 0 <= i < |w.log| && w.log[i].Posted? ==>
      Released(w.log, i, w.log[i].key) || (w.device.submission.Some? && w.device.submission.value.key == w.log[i].key)
  }

  predicate Separated(log: seq<Event>) {
    forall i, j :: 0 <= i < j < |log| && log[i].Posted? && log[j].Posted? && log[i].key != log[j].key ==>
      Released(log[..j], i, log[i].key)
  }

  predicate Orderly(w: World) {
    (w.device.submission.Some? ==> Known(w, w.device.submission.value)) &&
    (forall k :: k in w.minted ==> w.minted[k].key == k) &&
    (forall n :: n in w.windows ==> WindowOk(w, w.windows[n])) &&
    (forall p :: p in w.posts ==> PostOk(w, p.key, p.path, p.body)) &&
    (forall k :: k in w.records ==> PostOk(w, k, w.records[k].path, w.records[k].body) && w.records[k].id != "") &&
    (forall e :: e in w.log ==> EventOk(w, e))
  }

  predicate Inv(w: World) {
    Orderly(w) && Guarded(w) && Separated(w.log)
  }

  lemma ReleasedLater(log: seq<Event>, more: seq<Event>, from: nat, key: string)
    requires Released(log, from, key)
    ensures Released(log + more, from, key)
  {
    var m :| from < m < |log| && Releases(log[m], key);
    assert Releases((log + more)[m], key);
  }

  // Adding an event that is not a request.
  lemma AppendOther(w: World, w': World, e: Event)
    requires Guarded(w) && Separated(w.log) && w'.log == w.log + [e] && !e.Posted?
    requires w'.device.submission == w.device.submission ||
             (w.device.submission.Some? && Releases(e, w.device.submission.value.key)) || w.device.submission.None?
    ensures Guarded(w') && Separated(w'.log)
  {
    forall i | 0 <= i < |w'.log| && w'.log[i].Posted?
      ensures Released(w'.log, i, w'.log[i].key)
           || (w'.device.submission.Some? && w'.device.submission.value.key == w'.log[i].key)
    {
      assert w'.log[i] == w.log[i];
      if Released(w.log, i, w.log[i].key) {
        ReleasedLater(w.log, [e], i, w.log[i].key);
      } else if w'.device.submission != w.device.submission {
        assert Releases(w'.log[|w.log|], w.log[i].key);
      }
    }
    forall i, j | 0 <= i < j < |w'.log| && w'.log[i].Posted? && w'.log[j].Posted? && w'.log[i].key != w'.log[j].key
      ensures Released(w'.log[..j], i, w'.log[i].key)
    {
      assert w'.log[..j] == w.log[..j];
    }
  }

  // Adding a request that holds the slot.
  lemma AppendPosted(w: World, w': World, e: Event)
    requires Guarded(w) && Separated(w.log) && w'.log == w.log + [e] && e.Posted?
    requires w'.device.submission.Some? && w'.device.submission.value.key == e.key
    requires w.device.submission.None? || w.device.submission == w'.device.submission
    ensures Guarded(w') && Separated(w'.log)
  {
    forall i | 0 <= i < |w'.log| && w'.log[i].Posted?
      ensures Released(w'.log, i, w'.log[i].key) || w'.device.submission.value.key == w'.log[i].key
    {
      if i < |w.log| && Released(w.log, i, w.log[i].key) {
        ReleasedLater(w.log, [e], i, w.log[i].key);
      }
    }
    forall i, j | 0 <= i < j < |w'.log| && w'.log[i].Posted? && w'.log[j].Posted? && w'.log[i].key != w'.log[j].key
      ensures Released(w'.log[..j], i, w'.log[i].key)
    {
      assert w'.log[..j] == w.log[..j];
      if j == |w.log| {
        assert w.log[..j] == w.log;
      }
    }
  }

  // What is known stays known when a key is minted, and so does all that rests on it.
  lemma MintedKeepsOrderly(w: World, w': World, n: nat, s: HomeSubmission, win: Window)
    requires Orderly(w) && Acceptable(s) && (s.key in w.minted ==> w.minted[s.key] == s)
    requires w'.minted == w.minted[s.key := s] && w'.device.submission == Some(s) && w'.records == w.records
    requires w'.windows == w.windows[n := win] && win.pending == Some(s) && win.flight == Some(s) && !win.blocked
    requires w'.posts == w.posts + [Post(s.key, RequestFor(s.draft).path, RequestFor(s.draft).body)]
    requires forall e :: e in w'.log && e.Posted? && e !in w.log ==>
      e == Posted(s.key, RequestFor(s.draft).path, RequestFor(s.draft).body, Some(s))
    ensures Orderly(w')
  {
    forall k | k in w'.windows ensures WindowOk(w', w'.windows[k]) {
      if k != n { assert WindowOk(w, w.windows[k]); }
    }
    forall e | e in w'.log ensures EventOk(w', e) {
      if e in w.log { assert EventOk(w, e); }
    }
  }

  // What a request that goes out is, and where it is held by then.
  lemma SentShape(w: World, n: nat, key: string, permitted: bool, writable: bool)
    requires Inv(w) && n in w.windows && Next(w, Submit(n, key, permitted, writable)) != w
    ensures var win, w' := w.windows[n], Next(w, Submit(n, key, permitted, writable));
      var out := Submitted(w.device, win, key, permitted, writable);
      out.sent.Some? &&
      (var s := out.sent.value;
       Acceptable(s) && s.path == RequestFor(s.draft).path && s.body == RequestFor(s.draft).body &&
       (s.key in w.minted ==> w.minted[s.key] == s) && w'.device.submission == Some(s) &&
       (w.device.submission.None? || w.device.submission == Some(s)) &&
       out.window.pending == Some(s) && out.window.flight == Some(s) && !out.window.blocked &&
       w'.windows == w.windows[n := out.window])
  {
    assert WindowOk(w, w.windows[n]);
  }

  lemma SentKeepsInv(w: World, n: nat, key: string, permitted: bool, writable: bool)
    requires Inv(w) && n in w.windows
    ensures Inv(Next(w, Submit(n, key, permitted, writable)))
  {
    var win := w.windows[n];
    var out, w' := Submitted(w.device, win, key, permitted, writable), Next(w, Submit(n, key, permitted, writable));
    if w' != w {
      SentShape(w, n, key, permitted, writable);
      var s := out.sent.value;
      var posted := Posted(s.key, s.path, s.body, out.device.submission);
      MintedKeepsOrderly(w, w', n, s, out.window);
      if win.pending.None? {
        var mid := w.(log := w.log + [Minted(s.key)]);
        AppendOther(w, mid, Minted(s.key));
        assert w'.log == mid.log + [posted];
        AppendPosted(mid, w', posted);
      } else {
        AppendPosted(w, w', posted);
      }
    }
  }

  // Of the device, what matters is that an answer keeps the slot or clears it from its own request.
  lemma AnswerOutcome(device: Device, win: Window, record: Record, writes: nat)
    requires win.flight.Some?
    ensures var out := Answered(device, win, record, writes);
      (out.device.submission == device.submission ||
        (device.submission == win.flight && out.device.submission.None?)) &&
      (out.window.pending == win.pending || out.window.pending.None?) &&
      out.window.flight.None? && out.window.blocked == win.blocked
  {
  }

  lemma AnswerKeepsInv(w: World, n: nat, writes: nat, crash: bool)
    requires Inv(w) && n in w.windows
    ensures Inv(Next(w, Answer(n, writes, crash)))
  {
    var win, w' := w.windows[n], Next(w, Answer(n, writes, crash));
    assert WindowOk(w, win);
    if win.flight.Some? && win.flight.value.key in w.records {
      var record := w.records[win.flight.value.key];
      AnswerOutcome(w.device, win, record, writes);
      AnswerKeepsRest(w, w', n, Answered(w.device, win, record, writes));
      if w'.log != w.log {
        AppendOther(w, w', Confirmed(win.flight.value.key));
      }
    }
  }

  lemma AnswerKeepsRest(w: World, w': World, n: nat, out: Outcome)
    requires Inv(w) && n in w.windows && w'.minted == w.minted
    requires out.device.submission == w.device.submission || out.device.submission.None?
    requires out.window.pending == w.windows[n].pending || out.window.pending.None?
    requires out.window.flight.None? && out.window.blocked == w.windows[n].blocked
    requires w'.device == out.device
    requires w'.windows == w.windows - {n} || w'.windows == w.windows[n := out.window]
    ensures w'.device.submission.Some? ==> Known(w', w'.device.submission.value)
    ensures forall k :: k in w'.windows ==> WindowOk(w', w'.windows[k])
  {
    assert WindowOk(w, w.windows[n]);
    forall k | k in w'.windows ensures WindowOk(w', w'.windows[k]) {
      if k != n { assert WindowOk(w, w.windows[k]); }
    }
  }

  lemma ForgetKeepsInv(w: World, n: nat, writable: bool)
    requires Inv(w) && n in w.windows
    ensures Inv(Next(w, Forget(n, writable)))
  {
    var win, w' := w.windows[n], Next(w, Forget(n, writable));
    assert WindowOk(w, win);
    if CanForget(w.device, win, writable) {
      AppendOther(w, w', if w.device.submission.Some? then Forgot(w.device.submission.value.key) else ForgotNothing);
    }
  }

  lemma TypeKeepsInv(w: World, n: nat, prompt: string)
    requires Inv(w) && n in w.windows
    ensures Inv(Next(w, Type(n, prompt)))
  {
    var win, w' := w.windows[n], Next(w, Type(n, prompt));
    assert WindowOk(w, win);
    if win.pending.None? {
      AppendOther(w, w', Typed);
    }
  }

  // Reopening and retrying take up what the device holds, or nothing.
  lemma OpenKeepsInv(w: World, step: Step)
    requires Inv(w) && (step.Open? || step.Retry?)
    ensures Inv(Next(w, step))
  {
  }

  lemma QuietStepKeepsInv(w: World, step: Step)
    requires Inv(w) && (step.Deliver? || step.Crash? || step.Pick? || step.SaveDraft? || step.NoAnswer?)
    ensures Inv(Next(w, step))
  {
  }

  lemma StepKeepsInv(w: World, step: Step)
    requires Inv(w)
    ensures Inv(Next(w, step))
  {
    match step
    case Type(n, prompt) => if n in w.windows { TypeKeepsInv(w, n, prompt); }
    case Submit(n, key, permitted, writable) => if n in w.windows { SentKeepsInv(w, n, key, permitted, writable); }
    case Answer(n, writes, crash) => if n in w.windows { AnswerKeepsInv(w, n, writes, crash); }
    case Forget(n, writable) => if n in w.windows { ForgetKeepsInv(w, n, writable); }
    case Open(_, _, _, _) => OpenKeepsInv(w, step);
    case Retry(_, _) => OpenKeepsInv(w, step);
    case _ => QuietStepKeepsInv(w, step);
  }

  lemma {:induction false} RunKeepsInv(w: World, steps: seq<Step>)
    requires Inv(w)
    ensures Inv(Run(w, steps))
  {
    if steps != [] {
      RunKeepsInv(w, steps[..|steps| - 1]);
      StepKeepsInv(Run(w, steps[..|steps| - 1]), steps[|steps| - 1]);
    }
  }

  // Two requests with different identities are always separated by a confirmed finish, or an
  // explicit forgetting, of the earlier one, whichever windows they came from.
  lemma OneSubmissionAtATime(w: World, steps: seq<Step>, i: nat, j: nat)
    requires Start(w)
    requires i < j < |Run(w, steps).log|
    requires Run(w, steps).log[i].Posted? && Run(w, steps).log[j].Posted?
    requires Run(w, steps).log[i].key != Run(w, steps).log[j].key
    ensures exists m :: i < m < j && Releases(Run(w, steps).log[m], Run(w, steps).log[i].key)
  {
    RunKeepsInv(w, steps);
    var log := Run(w, steps).log;
    assert Released(log[..j], i, log[i].key);
    var m :| i < m < j && Releases(log[..j][m], log[i].key);
    assert Releases(log[m], log[i].key);
  }

  // Every request's identity was on the device when it was sent, as what reopening takes up; and
  // all requests ever sent under one key have the same path and body, those of one draft.
  lemma SameRequestOnEveryRetry(w: World, steps: seq<Step>, i: nat, j: nat)
    requires Start(w) && i < |Run(w, steps).log| && j < |Run(w, steps).log|
    requires Run(w, steps).log[i].Posted? && Run(w, steps).log[j].Posted?
    requires Run(w, steps).log[i].key == Run(w, steps).log[j].key
    ensures var a, b := Run(w, steps).log[i], Run(w, steps).log[j];
      a == b && a.held.Some? && a.held.value.key == a.key &&
      a.path == RequestFor(a.held.value.draft).path && a.body == RequestFor(a.held.value.draft).body
  {
    RunKeepsInv(w, steps);
    var end := Run(w, steps);
    assert EventOk(end, end.log[i]) && EventOk(end, end.log[j]);
  }

  // The server holds at most one record per key, made for the one request of that key: a retry,
  // from whatever window or after whatever crash, is answered with it and always matches.
  lemma AnswersAlwaysMatch(w: World, steps: seq<Step>, n: nat)
    requires Start(w)
    requires n in Run(w, steps).windows && Run(w, steps).windows[n].flight.Some?
    requires Run(w, steps).windows[n].flight.value.key in Run(w, steps).records
    ensures var end := Run(w, steps);
      var sent := end.windows[n].flight.value;
      Matches(end.records[sent.key], sent)
  {
    RunKeepsInv(w, steps);
    var end := Run(w, steps);
    assert WindowOk(end, end.windows[n]);
    assert PostOk(end, end.windows[n].flight.value.key,
                  end.records[end.windows[n].flight.value.key].path, end.records[end.windows[n].flight.value.key].body);
  }

  // ---------------------------------------------------------------- no second record

  predicate OneWindow(steps: seq<Step>) {
    forall i :: 0 <= i < |steps| ==> (steps[i].Open? ==> steps[i].w == 0)
  }

  // Whether, since the last confirmed request, the user typed or chose to forget a request.
  predicate UserActed(log: seq<Event>) {
    log == [] ||
    (var last := log[|log| - 1];
     if last.Typed? || last.Forgot? || last.ForgotNothing? then true
     else if last.Confirmed? then false
     else UserActed(log[..|log| - 1]))
  }

  // The text left on the device is empty, in both of the entries a window may read it from.
  predicate TextCleared(device: Device) {
    (device.draft.Some? ==> device.draft.value.prompt == "") && device.prompt.None?
  }

  predicate Tidy(w: World) {
    (forall n :: n in w.windows ==> n == 0) &&
    (0 in w.windows ==>
      var win := w.windows[0];
      (win.flight.Some? ==> win.flight == win.pending && !win.blocked) &&
      (win.pending.Some? ==> w.device.submission == win.pending && !win.blocked) &&
      (win.pending.None? && !win.blocked ==> w.device.submission.None?) &&
      (!UserActed(w.log) && w.device.submission.None? ==> win.prompt == "")) &&
    (!UserActed(w.log) && w.device.submission.None? ==> TextCleared(w.device)) &&
    MintedAfterUser(w.log)
  }

  predicate MintedAfterUser(log: seq<Event>) {
    forall i :: 0 <= i < |log| && log[i].Minted? ==> UserActed(log[..i])
  }

  lemma MintedAppend(log: seq<Event>, e: Event)
    requires MintedAfterUser(log) && (e.Minted? ==> UserActed(log))
    ensures MintedAfterUser(log + [e])
    ensures UserActed(log + [e]) ==
      if e.Typed? || e.Forgot? || e.ForgotNothing? then true else if e.Confirmed? then false else UserActed(log)
  {
    assert (log + [e])[..|log|] == log;
    forall i | 0 <= i < |log + [e]| && (log + [e])[i].Minted? ensures UserActed((log + [e])[..i]) {
      assert i < |log| ==> (log + [e])[..i] == log[..i];
    }
  }

  lemma SentStaysTidy(w: World, key: string, permitted: bool, writable: bool)
    requires Inv(w) && Tidy(w) && 0 in w.windows
    ensures Tidy(Next(w, Submit(0, key, permitted, writable)))
  {
    var win := w.windows[0];
    var out, w' := Submitted(w.device, win, key, permitted, writable), Next(w, Submit(0, key, permitted, writable));
    if w' != w {
      var s := out.sent.value;
      var posted := Posted(s.key, s.path, s.body, out.device.submission);
      if win.pending.None? {
        assert Blank("");
        MintedAppend(w.log, Minted(s.key));
        MintedAppend(w.log + [Minted(s.key)], posted);
        assert w'.log == w.log + [Minted(s.key)] + [posted];
      } else {
        MintedAppend(w.log, posted);
      }
    }
  }

  lemma AnswerStaysTidy(w: World, writes: nat, crash: bool)
    requires Inv(w) && Tidy(w) && 0 in w.windows
    ensures Tidy(Next(w, Answer(0, writes, crash)))
  {
    if Next(w, Answer(0, writes, crash)).log != w.log {
      MintedAppend(w.log, Confirmed(w.windows[0].flight.value.key));
    }
  }

  lemma StepStaysTidy(w: World, step: Step)
    requires Inv(w) && Tidy(w) && (step.Open? ==> step.w == 0)
    ensures Tidy(Next(w, step))
  {
    if step.Open? || step.Deliver? || step.w !in w.windows {
      return;
    }
    match step
    case Type(_, _) => MintedAppend(w.log, Typed);
    case Submit(_, key, permitted, writable) => SentStaysTidy(w, key, permitted, writable);
    case Answer(_, writes, crash) => AnswerStaysTidy(w, writes, crash);
    case Forget(_, writable) =>
      MintedAppend(w.log, if w.device.submission.Some? then Forgot(w.device.submission.value.key) else ForgotNothing);
    case _ =>
  }

  lemma {:induction false} RunStaysTidy(w: World, steps: seq<Step>)
    requires Start(w) && OneWindow(steps)
    ensures Inv(Run(w, steps)) && Tidy(Run(w, steps))
  {
    if steps != [] {
      RunStaysTidy(w, steps[..|steps| - 1]);
      StepKeepsInv(Run(w, steps[..|steps| - 1]), steps[|steps| - 1]);
      StepStaysTidy(Run(w, steps[..|steps| - 1]), steps[|steps| - 1]);
    }
  }

  // With one window open at a time, and through every crash, failed write and lost response, a
  // new identity is only ever made after the user typed (or forgot a request) since the last
  // confirmed one. A confirmed request's text never comes back by itself to be sent again.
  lemma NoRequestWithoutTheUser(w: World, steps: seq<Step>, i: nat)
    requires Start(w) && OneWindow(steps)
    requires i < |Run(w, steps).log| && Run(w, steps).log[i].Minted?
    ensures UserActed(Run(w, steps).log[..i])
  {
    RunStaysTidy(w, steps);
  }

  // ---------------------------------------------------------------- several windows

  // Text that could be sent: what is not blank and fits. (Choosing a mode or an agent is no typing.)
  predicate IsText(prompt: string) {
    !Blank(prompt) && |prompt| <= 16000
  }

  predicate NoTextShown(windows: map<nat, Window>) {
    forall n :: n in windows ==> !IsText(windows[n].prompt)
  }

  predicate NoTextKept(device: Device) {
    device.submission.None? && (device.draft.Some? ==> !IsText(device.draft.value.prompt)) &&
    (device.prompt.Some? ==> !IsText(device.prompt.value))
  }

  // A pending request shows its own text, so where no text is shown nothing is pending.
  predicate ShowsPending(win: Window) {
    (win.pending.Some? ==> Acceptable(win.pending.value) && win.prompt == win.pending.value.draft.prompt) &&
    (win.flight.Some? ==> win.flight == win.pending) && (win.blocked ==> win.pending.None?)
  }

  predicate AllShowPending(w: World) {
    forall n :: n in w.windows ==> ShowsPending(w.windows[n])
  }

  predicate Quiet(w: World) {
    NoTextKept(w.device) && NoTextShown(w.windows) && AllShowPending(w)
  }

  predicate Unattended(step: Step) {
    !step.Type? && !step.Forget?
  }

  predicate AllUnattended(steps: seq<Step>) {
    forall i :: 0 <= i < |steps| ==> Unattended(steps[i])
  }

  lemma OutcomesShowPending(device: Device, win: Window, key: string, permitted: bool, writable: bool)
    requires ShowsPending(win)
    ensures UuidShaped(key) || win.pending.Some? ==>
      ShowsPending(Submitted(device, win, key, permitted, writable).window)
    ensures ShowsPending(Forgotten(device, win, writable).window)
    ensures forall record, writes :: win.flight.Some? ==> ShowsPending(Answered(device, win, record, writes).window)
    ensures forall readable :: ShowsPending(Recovered(device, win, readable))
  {
  }

  lemma StepShowsPending(w: World, step: Step)
    requires AllShowPending(w)
    ensures AllShowPending(Next(w, step))
  {
    if step.Deliver? {
      return;
    }
    if step.w !in w.windows {
      if step.Open? { assert ShowsPending(Opened(w.device, step.readable, step.draftReadable, step.promptReadable)); }
      return;
    }
    var win, w' := w.windows[step.w], Next(w, step);
    assert ShowsPending(win);
    match step
    case Submit(_, key, permitted, writable) => OutcomesShowPending(w.device, win, key, permitted, writable);
    case Answer(_, writes, _) => OutcomesShowPending(w.device, win, "", false, false);
    case Forget(_, writable) => OutcomesShowPending(w.device, win, "", false, writable);
    case Retry(_, readable) => OutcomesShowPending(w.device, win, "", false, false);
    case _ =>
  }

  lemma {:induction false} RunShowsPending(w: World, steps: seq<Step>)
    requires Start(w)
    ensures AllShowPending(Run(w, steps))
  {
    if steps != [] {
      RunShowsPending(w, steps[..|steps| - 1]);
      StepShowsPending(Run(w, steps[..|steps| - 1]), steps[|steps| - 1]);
    }
  }

  // Where no text is shown or kept, none appears by itself, and nothing is sent.
  lemma QuietStep(w: World, step: Step)
    requires Quiet(w) && Unattended(step)
    ensures Quiet(Next(w, step)) && Next(w, step).log == w.log
  {
    StepShowsPending(w, step);
    assert Blank("");
  }

  lemma {:induction false} QuietRun(w: World, steps: seq<Step>)
    requires Quiet(w) && AllUnattended(steps)
    ensures Quiet(Run(w, steps)) && Run(w, steps).log == w.log
  {
    if steps != [] {
      QuietRun(w, steps[..|steps| - 1]);
      QuietStep(Run(w, steps[..|steps| - 1]), steps[|steps| - 1]);
    }
  }

  // A confirmed finish leaves no text on the device, whatever else is going on.
  lemma ConfirmedLeavesNoText(w: World, n: nat, writes: nat, crash: bool)
    requires Next(w, Answer(n, writes, crash)).log != w.log
    ensures NoTextKept(Next(w, Answer(n, writes, crash)).device)
  {
    assert Blank("");
  }

  // ---------------------------------------------------------------- when a text is sent by itself

  predicate Mints(w: World, steps: seq<Step>) {
    exists i :: |w.log| <= i < |Run(w, steps).log| && Run(w, steps).log[i].Minted?
  }

  ghost predicate SentUnattended(w: World) {
    exists steps :: AllUnattended(steps) && Mints(w, steps)
  }

  // The draft-saving effect, a reload and a click: all it takes where a text is shown.
  function Resend(n: nat, key: string): seq<Step> {
    [SaveDraft(n, true, true), Crash(n), Open(n, true, true, true), Pick(n, AgentMode, ""), Submit(n, key, true, true)]
  }

  lemma ReloadedShows(w: World, n: nat)
    requires n in w.windows && w.device.submission.None?
    ensures var w' := Next(Next(Next(w, SaveDraft(n, true, true)), Crash(n)), Open(n, true, true, true));
      w'.log == w.log && w'.minted == w.minted && n in w'.windows && w'.device.submission.None? &&
      (var win := w'.windows[n];
       win.pending.None? && win.flight.None? && !win.blocked && win.prompt == w.windows[n].prompt)
  {
  }

  lemma ShownTextIsSent(w: World, n: nat, key: string)
    requires n in w.windows && w.device.submission.None? && w.windows[n].pending.None? && w.windows[n].flight.None?
    requires !w.windows[n].blocked && IsText(w.windows[n].prompt) && UuidShaped(key) && key !in w.minted
    ensures var w' := Next(Next(w, Pick(n, AgentMode, "")), Submit(n, key, true, true));
      |w'.log| == |w.log| + 2 && w'.log[|w.log|] == Minted(key)
  {
  }

  lemma RunFive(w: World, a: Step, b: Step, c: Step, d: Step, e: Step)
    ensures Run(w, [a, b, c, d, e]) == Next(Next(Next(Next(Next(w, a), b), c), d), e)
  {
    assert [a, b, c, d, e][..4] == [a, b, c, d] && [a, b, c, d][..3] == [a, b, c] && [a, b, c][..2] == [a, b];
    assert [a, b][..1] == [a] && [a][..0] == [];
    assert Run(w, [a]) == Next(w, a);
    assert Run(w, [a, b]) == Next(Next(w, a), b);
    assert Run(w, [a, b, c]) == Next(Next(Next(w, a), b), c);
  }

  lemma ResendMints(w: World, n: nat, key: string)
    requires n in w.windows && w.device.submission.None?
    requires IsText(w.windows[n].prompt) && UuidShaped(key) && key !in w.minted
    ensures AllUnattended(Resend(n, key)) && Mints(w, Resend(n, key))
  {
    RunFive(w, SaveDraft(n, true, true), Crash(n), Open(n, true, true, true), Pick(n, AgentMode, ""),
      Submit(n, key, true, true));
    var w3 := Next(Next(Next(w, SaveDraft(n, true, true)), Crash(n)), Open(n, true, true, true));
    ReloadedShows(w, n);
    ShownTextIsSent(w3, n, key);
    assert Run(w, Resend(n, key)).log[|w.log|].Minted?;
  }

  // Any number of windows, in every run: right after a confirmed finish, a new request can go out
  // without the user typing or forgetting anything if and only if some open window shows text.
  // (`key` is any key not generated before.)
  lemma SentUnattendedIff(w: World, steps: seq<Step>, n: nat, writes: nat, crash: bool, key: string)
    requires Start(w) && Next(Run(w, steps), Answer(n, writes, crash)).log != Run(w, steps).log
    requires UuidShaped(key) && key !in Next(Run(w, steps), Answer(n, writes, crash)).minted
    ensures var after := Next(Run(w, steps), Answer(n, writes, crash));
      SentUnattended(after) <==> !NoTextShown(after.windows)
  {
    var after := Next(Run(w, steps), Answer(n, writes, crash));
    ConfirmedLeavesNoText(Run(w, steps), n, writes, crash);
    RunShowsPending(w, steps);
    StepShowsPending(Run(w, steps), Answer(n, writes, crash));
    if NoTextShown(after.windows) {
      forall more | AllUnattended(more) ensures !Mints(after, more) {
        QuietRun(after, more);
      }
    } else {
      var m :| m in after.windows && IsText(after.windows[m].prompt);
      ResendMints(after, m, key);
    }
  }

  // ---------------------------------------------------------------- one record per request, with several windows

  // Whenever a request is confirmed, no window is left showing text.
  ghost predicate ClearsAllWindows(w: World, steps: seq<Step>) {
    forall j :: 0 <= j < |steps| && steps[j].Answer? && Run(w, steps[..j + 1]).log != Run(w, steps[..j]).log ==>
      NoTextShown(Run(w, steps[..j + 1]).windows)
  }

  predicate Minded(w: World) {
    (!UserActed(w.log) ==> Quiet(w)) && MintedAfterUser(w.log)
  }

  // What sending adds to the history: the request, after the making of its key if that is new.
  lemma SentEvents(w: World, n: nat, key: string, permitted: bool, writable: bool) returns (posted: Event)
    requires n in w.windows
    ensures posted.Posted?
    ensures var w' := Next(w, Submit(n, key, permitted, writable));
      w'.log == w.log || w'.log == w.log + [posted] ||
      (w'.log == w.log + [Minted(key)] + [posted] && posted.key == key && key !in w.minted && key in w'.minted)
  {
    var out := Submitted(w.device, w.windows[n], key, permitted, writable);
    if out.sent.Some? {
      var s := out.sent.value;
      posted := Posted(s.key, s.path, s.body, out.device.submission);
      assert w.log + [Minted(s.key), posted] == w.log + [Minted(s.key)] + [posted];
    } else {
      posted := Posted("", "", ProposalBody(""), None);
    }
  }

  lemma SubmitStaysMinded(w: World, n: nat, key: string, permitted: bool, writable: bool)
    requires Minded(w) && UserActed(w.log) && n in w.windows
    ensures Minded(Next(w, Submit(n, key, permitted, writable)))
  {
    var posted := SentEvents(w, n, key, permitted, writable);
    MintedAppend(w.log, posted);
    MintedAppend(w.log, Minted(key));
    MintedAppend(w.log + [Minted(key)], posted);
  }

  lemma AnswerStaysMinded(w: World, n: nat, writes: nat, crash: bool)
    requires Minded(w) && AllShowPending(w)
    requires Next(w, Answer(n, writes, crash)).log != w.log ==> NoTextShown(Next(w, Answer(n, writes, crash)).windows)
    ensures Minded(Next(w, Answer(n, writes, crash)))
  {
    var w' := Next(w, Answer(n, writes, crash));
    if w'.log != w.log {
      MintedAppend(w.log, Confirmed(w.windows[n].flight.value.key));
      ConfirmedLeavesNoText(w, n, writes, crash);
      StepShowsPending(w, Answer(n, writes, crash));
    } else if !UserActed(w.log) {
      QuietStep(w, Answer(n, writes, crash));
    }
  }

  lemma StepStaysMinded(w: World, step: Step)
    requires Minded(w) && AllShowPending(w)
    requires step.Answer? && Next(w, step).log != w.log ==> NoTextShown(Next(w, step).windows)
    ensures Minded(Next(w, step))
  {
    match step
    case Type(n, _) =>
      if n in w.windows && w.windows[n].pending.None? { MintedAppend(w.log, Typed); }
    case Forget(n, writable) =>
      if n in w.windows && CanForget(w.device, w.windows[n], writable) {
        MintedAppend(w.log, if w.device.submission.Some? then Forgot(w.device.submission.value.key) else ForgotNothing);
      }
    case Answer(n, writes, crash) => AnswerStaysMinded(w, n, writes, crash);
    case Submit(n, key, permitted, writable) =>
      if !UserActed(w.log) { QuietStep(w, step); }
      else if n in w.windows { SubmitStaysMinded(w, n, key, permitted, writable); }
    case _ =>
      if !UserActed(w.log) { QuietStep(w, step); }
  }

  lemma ClearedEarlier(w: World, steps: seq<Step>, n: int)
    requires ClearsAllWindows(w, steps) && 0 <= n <= |steps|
    ensures ClearsAllWindows(w, steps[..n])
  {
    forall j | 0 <= j < n && steps[..n][j].Answer? && Run(w, steps[..n][..j + 1]).log != Run(w, steps[..n][..j]).log
      ensures NoTextShown(Run(w, steps[..n][..j + 1]).windows)
    {
      assert steps[..n][..j + 1] == steps[..j + 1] && steps[..n][..j] == steps[..j];
    }
  }

  lemma {:induction false} RunStaysMinded(w: World, steps: seq<Step>)
    requires Start(w) && ClearsAllWindows(w, steps)
    ensures Minded(Run(w, steps))
  {
    if steps != [] {
      var n := |steps| - 1;
      ClearedEarlier(w, steps, n);
      RunStaysMinded(w, steps[..n]);
      RunShowsPending(w, steps[..n]);
      assert steps[..n + 1] == steps;
      RunNext(w, steps, n);
      StepStaysMinded(Run(w, steps[..n]), steps[n]);
    }
  }

  // With any number of windows, as long as a confirmed finish leaves no window showing text: a new
  // identity is only ever made after the user typed, or forgot a request, since that finish.
  lemma NoRequestWithoutTheUserInAnyWindow(w: World, steps: seq<Step>, i: nat)
    requires Start(w) && ClearsAllWindows(w, steps)
    requires i < |Run(w, steps).log| && Run(w, steps).log[i].Minted?
    ensures UserActed(Run(w, steps).log[..i])
  {
    RunStaysMinded(w, steps);
  }

  // ---------------------------------------------------------------- one request, one record

  predicate IsUserAct(e: Event) {
    e.Typed? || e.Forgot? || e.ForgotNothing?
  }

  // A new key is sent at once, and is not made again.
  predicate KeysAreNew(log: seq<Event>, minted: set<string>) {
    (forall i :: 0 <= i < |log| && log[i].Minted? ==>
      log[i].key in minted && i + 1 < |log| && log[i + 1].Posted? && log[i + 1].key == log[i].key) &&
    (forall i, j :: 0 <= i < j < |log| && log[i].Minted? && log[j].Minted? ==> log[i].key != log[j].key)
  }

  lemma NewKey(log: seq<Event>, minted: set<string>, minted': set<string>, key: string, posted: Event)
    requires KeysAreNew(log, minted) && minted <= minted' && key in minted' && key !in minted
    requires posted.Posted? && posted.key == key
    ensures KeysAreNew(log + [Minted(key)] + [posted], minted')
  {
  }

  lemma OtherEvent(log: seq<Event>, minted: set<string>, minted': set<string>, e: Event)
    requires KeysAreNew(log, minted) && minted <= minted' && !e.Minted?
    ensures KeysAreNew(log, minted') && KeysAreNew(log + [e], minted')
  {
  }

  lemma StepOnlyMints(w: World, step: Step)
    ensures w.minted.Keys <= Next(w, step).minted.Keys
  {
  }

  // Any other step adds one event at most.
  lemma OtherEvents(w: World, step: Step) returns (e: Event)
    requires !step.Submit?
    ensures !e.Minted? && (Next(w, step).log == w.log || Next(w, step).log == w.log + [e])
  {
    e := Typed;
    if step.Answer? && step.w in w.windows && w.windows[step.w].flight.Some? {
      e := Confirmed(w.windows[step.w].flight.value.key);
    } else if step.Forget? {
      e := if w.device.submission.Some? then Forgot(w.device.submission.value.key) else ForgotNothing;
    }
  }

  lemma {:induction false} RunKeepsKeysNew(w: World, steps: seq<Step>)
    requires Start(w)
    ensures KeysAreNew(Run(w, steps).log, Run(w, steps).minted.Keys)
  {
    if steps != [] {
      var before, step := Run(w, steps[..|steps| - 1]), steps[|steps| - 1];
      RunKeepsKeysNew(w, steps[..|steps| - 1]);
      StepKeepsKeysNew(before, step);
    }
  }

  lemma StepKeepsKeysNew(w: World, step: Step)
    requires KeysAreNew(w.log, w.minted.Keys)
    ensures KeysAreNew(Next(w, step).log, Next(w, step).minted.Keys)
  {
    StepOnlyMints(w, step);
    var minted := Next(w, step).minted.Keys;
    if !step.Submit? {
      var e := OtherEvents(w, step);
      OtherEvent(w.log, w.minted.Keys, minted, e);
    } else if step.w in w.windows {
      var posted := SentEvents(w, step.w, step.key, step.permitted, step.writable);
      OtherEvent(w.log, w.minted.Keys, minted, posted);
      if Next(w, step).log == w.log + [Minted(step.key)] + [posted] && step.key in minted && step.key !in w.minted &&
         posted.key == step.key {
        NewKey(w.log, w.minted.Keys, minted, step.key, posted);
      }
    }
  }

  lemma {:induction false} ActedSince(log: seq<Event>, m: nat) returns (p: nat)
    requires UserActed(log) && m < |log| && log[m].Confirmed?
    ensures m < p < |log| && IsUserAct(log[p])
  {
    var n := |log| - 1;
    if IsUserAct(log[n]) {
      p := n;
    } else {
      p := ActedSince(log[..n], m);
    }
  }

  lemma UserActsBeforeAKey(w: World, steps: seq<Step>, j: nat)
    requires Start(w) && (OneWindow(steps) || ClearsAllWindows(w, steps))
    requires j < |Run(w, steps).log| && Run(w, steps).log[j].Minted?
    ensures UserActed(Run(w, steps).log[..j])
  {
    if OneWindow(steps) {
      NoRequestWithoutTheUser(w, steps, j);
    } else {
      NoRequestWithoutTheUserInAnyWindow(w, steps, j);
    }
  }

  // What is made under a new key is posted at once, so between two keys the first is released.
  lemma ReleasedBetween(w: World, steps: seq<Step>, i: nat, j: nat) returns (m: nat)
    requires Start(w)
    requires i < j < |Run(w, steps).log| && Run(w, steps).log[i].Minted? && Run(w, steps).log[j].Minted?
    ensures i < m < j && Releases(Run(w, steps).log[m], Run(w, steps).log[i].key)
  {
    RunKeepsKeysNew(w, steps);
    OneSubmissionAtATime(w, steps, i + 1, j + 1);
    m :| i + 1 < m < j + 1 && Releases(Run(w, steps).log[m], Run(w, steps).log[i].key);
  }

  lemma ActedFrom(log: seq<Event>, m: nat, j: nat) returns (p: nat)
    requires m < j <= |log| && UserActed(log[..j]) && (log[m].Confirmed? || IsUserAct(log[m]))
    ensures m <= p < j && IsUserAct(log[p])
  {
    if IsUserAct(log[m]) {
      p := m;
    } else {
      p := ActedSince(log[..j], m);
    }
  }

  // One request of the user is recorded once at most: between two new keys, whichever windows they
  // are from, the user typed something, or forgot a request.
  lemma UserActsBetweenKeys(w: World, steps: seq<Step>, i: nat, j: nat) returns (p: nat)
    requires Start(w) && (OneWindow(steps) || ClearsAllWindows(w, steps))
    requires i < j < |Run(w, steps).log| && Run(w, steps).log[i].Minted? && Run(w, steps).log[j].Minted?
    ensures i < p < j && IsUserAct(Run(w, steps).log[p])
  {
    UserActsBeforeAKey(w, steps, j);
    var m := ReleasedBetween(w, steps, i, j);
    p := ActedFrom(Run(w, steps).log, m, j);
  }

  // ---------------------------------------------------------------- how two windows send a text twice

  function StartWith(d: HomeDraft): World {
    World(Device(None, Some(d), None, None), map[], [], map[], map[], [])
  }

  function TwoSends(k1: string, k2: string, id1: string, id2: string): seq<Step> {
    [Open(0, true, true, true), Open(1, true, true, true), Submit(0, k1, true, true), Deliver(0, id1),
      Answer(0, 4, false),
     Submit(1, k2, true, true), Deliver(1, id2)]
  }

  lemma RunNext(w: World, steps: seq<Step>, n: int)
    requires 0 <= n < |steps|
    ensures Run(w, steps[..n + 1]) == Next(Run(w, steps[..n]), steps[n])
  {
    assert steps[..n + 1][..n] == steps[..n];
  }

  // Two windows show one saved draft. The first sends it and finishes; the second still shows it
  // and sends it too, under its own key: one text, never typed again, two records.
  lemma TwoWindowsSendTwice(d: HomeDraft, k1: string, k2: string, id1: string, id2: string)
    requires Sendable(d) && UuidShaped(k1) && UuidShaped(k2) && k1 != k2 && id1 != "" && id2 != ""
    ensures Start(StartWith(d))
    ensures var end := Run(StartWith(d), TwoSends(k1, k2, id1, id2));
      k1 in end.records && k2 in end.records && end.records[k1].path == end.records[k2].path &&
      end.records[k1].body == end.records[k2].body &&
      exists i :: 0 <= i < |end.log| && end.log[i] == Minted(k2) && !UserActed(end.log[..i])
  {
    SentTwice(StartWith(d), TwoSends(k1, k2, id1, id2), d, k1, k2, id1, id2);
  }

  lemma SentTwice(w: World, steps: seq<Step>, d: HomeDraft, k1: string, k2: string, id1: string, id2: string)
    requires Sendable(d) && UuidShaped(k1) && UuidShaped(k2) && k1 != k2 && id1 != "" && id2 != ""
    requires w == StartWith(d) && steps == TwoSends(k1, k2, id1, id2)
    ensures var end := Run(w, steps);
      k1 in end.records && k2 in end.records && end.records[k1].path == end.records[k2].path &&
      end.records[k1].body == end.records[k2].body &&
      exists i :: 0 <= i < |end.log| && end.log[i] == Minted(k2) && !UserActed(end.log[..i])
  {
    RunSeven(w, steps);
    BothOpen(d);
    BothSend(Next(Next(w, steps[0]), steps[1]), d, k1, k2, id1, id2);
  }

  lemma RunSeven(w: World, steps: seq<Step>)
    requires |steps| == 7
    ensures Run(w, steps) ==
      Next(Next(Next(Next(Next(Next(Next(w, steps[0]), steps[1]), steps[2]), steps[3]), steps[4]), steps[5]), steps[6])
  {
    assert steps[..0] == [] && steps[..7] == steps;
    RunNext(w, steps, 0);
    RunNext(w, steps, 1);
    RunNext(w, steps, 2);
    RunNext(w, steps, 3);
    RunNext(w, steps, 4);
    RunNext(w, steps, 5);
    RunNext(w, steps, 6);
  }

  lemma BothOpen(d: HomeDraft)
    ensures Next(Next(StartWith(d), Open(0, true, true, true)), Open(1, true, true, true)) ==
      StartWith(d).(windows := map[0 := Showing(d), 1 := Showing(d)])
  {
  }

  lemma BothSend(w: World, d: HomeDraft, k1: string, k2: string, id1: string, id2: string)
    requires Sendable(d) && UuidShaped(k1) && UuidShaped(k2) && k1 != k2 && id1 != "" && id2 != ""
    requires w == StartWith(d).(windows := map[0 := Showing(d), 1 := Showing(d)])
    ensures var five := Next(Next(Next(w, Submit(0, k1, true, true)), Deliver(0, id1)), Answer(0, 4, false));
      var end := Next(Next(five, Submit(1, k2, true, true)), Deliver(1, id2));
      k1 in end.records && k2 in end.records && end.records[k1].path == end.records[k2].path &&
      end.records[k1].body == end.records[k2].body &&
      exists i :: 0 <= i < |end.log| && end.log[i] == Minted(k2) && !UserActed(end.log[..i])
  {
    Sends(w, 0, d, k1, id1);
    var four := Next(Next(w, Submit(0, k1, true, true)), Deliver(0, id1));
    Finishes(four, 0, d, k1);
    SendsAgain(Next(four, Answer(0, 4, false)), d, k1, k2, id2);
  }

  lemma SendsAgain(w: World, d: HomeDraft, k1: string, k2: string, id: string)
    requires 1 in w.windows && w.windows[1] == Showing(d)
    requires w.device.submission.None? && |w.posts| == 1 && !UserActed(w.log)
    requires k1 in w.records && (w.records[k1].path, w.records[k1].body) == (RequestFor(d).path, RequestFor(d).body)
    requires Sendable(d) && UuidShaped(k2) && k2 !in w.minted && k2 !in w.records && id != ""
    ensures var end := Next(Next(w, Submit(1, k2, true, true)), Deliver(1, id));
      k1 in end.records && k2 in end.records && end.records[k1].path == end.records[k2].path &&
      end.records[k1].body == end.records[k2].body &&
      exists i :: 0 <= i < |end.log| && end.log[i] == Minted(k2) && !UserActed(end.log[..i])
  {
    Sends(w, 1, d, k2, id);
    var end := Next(Next(w, Submit(1, k2, true, true)), Deliver(1, id));
    assert end.log[..|w.log|] == w.log && end.log[|w.log|] == Minted(k2);
  }

  function Showing(d: HomeDraft): Window {
    Window(d.prompt, d.mode, d.agentID, None, false, None)
  }

  lemma Sends(w: World, n: nat, d: HomeDraft, key: string, id: string)
    requires n in w.windows && w.windows[n] == Showing(d) && w.device.submission.None?
    requires Sendable(d) && UuidShaped(key) && key !in w.minted && key !in w.records && id != ""
    ensures var s := NewSubmission(d, key);
      var sent := Next(w, Submit(n, key, true, true));
      |sent.posts| == |w.posts| + 1 &&
      Next(sent, Deliver(|w.posts|, id)) == w.(
        device := w.device.(submission := Some(s)),
        windows := w.windows[n := Showing(d).(pending := Some(s), flight := Some(s))],
        posts := w.posts + [Post(key, s.path, s.body)], minted := w.minted[key := s],
        records := w.records[key := Record(id, s.path, s.body)],
        log := w.log + [Minted(key), Posted(key, s.path, s.body, Some(s))])
  {
  }

  lemma Finishes(w: World, n: nat, d: HomeDraft, key: string)
    requires var s := NewSubmission(d, key);
      n in w.windows && w.windows[n].flight == Some(s) && w.device.submission == Some(s) && key in w.records &&
      Matches(w.records[key], s)
    ensures var w' := Next(w, Answer(n, 4, false));
      w'.log == w.log + [Confirmed(key)] && !UserActed(w'.log) && w'.device.submission.None? &&
      w'.records == w.records &&
      w'.posts == w.posts && w'.minted == w.minted && w'.windows.Keys == w.windows.Keys &&
      forall m :: m in w.windows && m != n ==> w'.windows[m] == w.windows[m]
  {
  }

  // ---------------------------------------------------------------- what a step does

  // What the user does in a window counts only while nothing is pending there; saving the draft
  // writes what the window shows; a window that goes takes nothing from the device with it.
  lemma WindowDoes(w: World, steps: seq<Step>, step: Step)
    requires step.Type? || step.Pick? || step.SaveDraft? || step.Crash? || step.NoAnswer?
    requires step.w in Run(w, steps).windows
    ensures var now, next := Run(w, steps), Run(w, steps + [step]);
      var win := now.windows[step.w];
      match step
      case Type(n, prompt) =>
        next == (if win.pending.Some? then now
                 else now.(windows := now.windows[n := win.(prompt := prompt)], log := now.log + [Typed]))
      case Pick(n, mode, agentID) =>
        next == (if win.pending.Some? then now
                 else now.(windows := now.windows[n := win.(mode := mode, agentID := agentID)]))
      case SaveDraft(_, draftOk, promptOk) =>
        next == now.(device := next.device) && next.device.submission == now.device.submission &&
        next.device.proposal == now.device.proposal &&
        next.device.draft ==
          (if draftOk then Some(HomeDraft(win.prompt, win.mode, win.agentID)) else now.device.draft) &&
        next.device.prompt ==
          (if !promptOk then now.device.prompt else if win.prompt != "" then Some(win.prompt) else None)
      case Crash(n) => next == now.(windows := now.windows - {n})
      case NoAnswer(n) => next == now.(windows := now.windows[n := win.(flight := None)])
      case _ => true
  {
    assert (steps + [step])[..|steps|] == steps;
  }

  // The record of a request reaches the window that sent it, and the device alone if that window
  // goes before it is done.
  lemma RecordArrives(w: World, steps: seq<Step>, n: nat, writes: nat, crash: bool)
    requires n in Run(w, steps).windows && Run(w, steps).windows[n].flight.Some?
    requires Run(w, steps).windows[n].flight.value.key in Run(w, steps).records
    ensures var now, next := Run(w, steps), Run(w, steps + [Answer(n, writes, crash)]);
      var win := now.windows[n];
      var out := Answered(now.device, win, now.records[win.flight.value.key], writes);
      next.device == out.device &&
      next.windows == (if crash then now.windows - {n} else now.windows[n := out.window]) &&
      next.posts == now.posts && next.records == now.records && next.minted == now.minted
  {
    assert (steps + [Answer(n, writes, crash)])[..|steps|] == steps;
  }

  // What the server has recorded under a key it never records anew.
  lemma {:induction false} RecordsStay(w: World, steps: seq<Step>)
    ensures forall k :: k in w.records ==> k in Run(w, steps).records && Run(w, steps).records[k] == w.records[k]
  {
    if steps != [] {
      RecordsStay(w, steps[..|steps| - 1]);
      StepKeepsRecords(Run(w, steps[..|steps| - 1]), steps[|steps| - 1]);
    }
  }

  lemma StepKeepsRecords(w: World, step: Step)
    ensures forall k :: k in w.records ==> k in Next(w, step).records && Next(w, step).records[k] == w.records[k]
  {
  }
}
