/**
  The list of a team's channels as polls, saved changes and read positions come in
  (desktop/src/TeamChannels.tsx), in whatever order they do.
 */
module Channels {
  import opened Options

  datatype Position = Position(readSequence: int, revision: int)

  // `details` are the displayed fields: title, status, last sequence, participation.
  datatype Item = Item(id: string, revision: int, details: string, readPosition: Option<Position>)

  function Find(items: seq<Item>, id: string): (found: Option<Item>)
    ensures found.Some? ==> found.value.id == id && found.value in items
    ensures found.None? ==> forall i :: 0 <= i < |items| ==> items[i].id != id
  {
    if items == [] then None else if items[0].id == id then Some(items[0]) else Find(items[1..], id)
  }

  // ---------------------------------------------------------------- the merges

  function LaterPosition(known: Option<Position>, next: Option<Position>): Option<Position> {
    if known.Some? &&
       (next.None? || known.value.revision > next.value.revision || known.value.readSequence > next.value.readSequence)
    then known
    else next
  }

  function MergedItem(known: Option<Item>, item: Item): Item {
    if known.None? then item
    else
      var channel := if known.value.revision > item.revision then known.value else item;
      channel.(readPosition := LaterPosition(known.value.readPosition, item.readPosition))
  }

  // The server is asked for one channel more than a page shows.
  function Page(result: seq<Item>): seq<Item> {
    if |result| > 20 then result[..20] else result
  }

  function Polled(previous: seq<Item>, result: seq<Item>): seq<Item> {
    var page := Page(result);
    seq(|page|, i requires 0 <= i < |page| => MergedItem(Find(previous, page[i].id), page[i]))
  }

  function Noticed(item: Item, p: Position): Item {
    if item.readPosition.None? ||
       (p.revision >= item.readPosition.value.revision && p.readSequence >= item.readPosition.value.readSequence)
    then item.(readPosition := Some(p))
    else item
  }

  function ReadPositionNoticed(items: seq<Item>, selected: string, p: Position): seq<Item> {
    seq(|items|, i requires 0 <= i < |items| => if items[i].id == selected then Noticed(items[i], p) else items[i])
  }

  function UpdatedItem(item: Item, next: Item): Item {
    if next.revision >= item.revision then next.(readPosition := item.readPosition) else item
  }

  function Updated(items: seq<Item>, next: Item): seq<Item> {
    seq(|items|, i requires 0 <= i < |items| => if items[i].id == next.id then UpdatedItem(items[i], next)
      else items[i])
  }

  // The open conversation keeps the newer of what it shows and what a load or a setting brings.
  function Conversation(shown: Option<Item>, current: Item): Item {
    if shown.Some? && shown.value.revision > current.revision then shown.value else current
  }

  datatype Event = Poll(result: seq<Item>) | ReadNotice(selected: string, position: Position) | Saved(next: Item)

  function Next(view: seq<Item>, e: Event): seq<Item> {
    match e
    case Poll(result) => Polled(view, result)
    case ReadNotice(selected, p) => ReadPositionNoticed(view, selected, p)
    case Saved(next) => Updated(view, next)
  }

  function Run(view: seq<Item>, events: seq<Event>): seq<Item> {
    if events == [] then view else Next(Run(view, events[..|events| - 1]), events[|events| - 1])
  }

  // ---------------------------------------------------------------- one channel of the list

  lemma {:induction false} FindInMap(items: seq<Item>, mapped: seq<Item>, id: string)
    requires |mapped| == |items| && forall i :: 0 <= i < |items| ==> mapped[i].id == items[i].id
    ensures Find(items, id).None? <==> Find(mapped, id).None?
    ensures Find(items, id).Some? ==>
      exists i :: 0 <= i < |items| && items[i].id == id && Find(items, id) == Some(items[i]) &&
        Find(mapped, id) == Some(mapped[i])
  {
    if items != [] {
      if items[0].id == id {
        assert items[0].id == id && Find(mapped, id) == Some(mapped[0]);
      } else {
        FindInMap(items[1..], mapped[1..], id);
        if Find(items[1..], id).Some? {
          var i :| 0 <= i < |items[1..]| && items[1..][i].id == id && Find(items[1..], id) == Some(items[1..][i]) &&
                   Find(mapped[1..], id) == Some(mapped[1..][i]);
          assert items[i + 1].id == id && Find(items, id) == Some(items[i + 1]) &&
            Find(mapped, id) == Some(mapped[i + 1]);
        }
      }
    }
  }

  predicate Keeps(e: Event, id: string) {
    e.Poll? ==> Find(Page(e.result), id).Some?
  }

  function ItemNext(shown: Item, e: Event): Item
    requires Keeps(e, shown.id)
  {
    match e
    case Poll(result) => MergedItem(Some(shown), Find(Page(result), shown.id).value)
    case ReadNotice(selected, p) => if selected == shown.id then Noticed(shown, p) else shown
    case Saved(next) => if next.id == shown.id then UpdatedItem(shown, next) else shown
  }

  // What the list shows of a channel depends only on what it showed of it and on the event.
  lemma ChannelStep(view: seq<Item>, e: Event, shown: Item)
    requires Find(view, shown.id) == Some(shown) && Keeps(e, shown.id)
    ensures ItemNext(shown, e).id == shown.id
    ensures Find(Next(view, e), shown.id) == Some(ItemNext(shown, e))
  {
    match e
    case Poll(result) => FindInMap(Page(result), Next(view, e), shown.id);
    case ReadNotice(_, _) => FindInMap(view, Next(view, e), shown.id);
    case Saved(_) => FindInMap(view, Next(view, e), shown.id);
  }

  // ---------------------------------------------------------------- monotone

  predicate NotBefore(a: Option<Position>, b: Option<Position>) {
    a.Some? ==> b.Some? && a.value.revision <= b.value.revision && a.value.readSequence <= b.value.readSequence
  }

  predicate Advances(a: Item, b: Item) {
    a.id == b.id && a.revision <= b.revision && NotBefore(a.readPosition, b.readPosition)
  }

  // While a channel stays on the page, nothing displayed of it ever goes back: not its revision,
  // not the revision of its read position, not its read sequence, whatever arrives when.
  lemma {:induction false} DisplayNeverGoesBack(view: seq<Item>, events: seq<Event>, shown: Item)
    requires Find(view, shown.id) == Some(shown) && forall e :: e in events ==> Keeps(e, shown.id)
    ensures Find(Run(view, events), shown.id).Some? && Advances(shown, Find(Run(view, events), shown.id).value)
  {
    if events != [] {
      var front, last := events[..|events| - 1], events[|events| - 1];
      DisplayNeverGoesBack(view, front, shown);
      assert Keeps(last, shown.id);
      ChannelStep(Run(view, front), last, Find(Run(view, front), shown.id).value);
    }
  }

  // A channel that leaves the page is forgotten: when it comes back, an older answer is shown.
  lemma LeavingThePageForgets(view: seq<Item>, item: Item)
    ensures Run(view, [Poll([]), Poll([item])]) == [item]
  {
    assert [Poll([]), Poll([item])][..1] == [Poll([])];
    assert [Poll([])][..0] == [];
    assert Run(view, [Poll([])]) == [];
    assert Polled([], [item]) == [item];
  }

  function ConversationAfter(shown: Option<Item>, loads: seq<Item>): Option<Item> {
    if loads == [] then shown
    else Some(Conversation(ConversationAfter(shown, loads[..|loads| - 1]), loads[|loads| - 1]))
  }

  // The open conversation is at least as new as everything loaded and as what it showed before; of
  // what is equally new it is what was loaded last.
  lemma {:induction false} ConversationNeverGoesBack(shown: Option<Item>, loads: seq<Item>, l: int)
    requires 0 <= l < |loads|
    ensures ConversationAfter(shown, loads).Some?
    ensures loads[l].revision <= ConversationAfter(shown, loads).value.revision
    ensures shown.Some? ==> shown.value.revision <= ConversationAfter(shown, loads).value.revision
    ensures ConversationAfter(shown, loads) == shown || ConversationAfter(shown, loads).value in loads
    ensures var last := loads[|loads| - 1];
      (shown.Some? ==> shown.value.revision <= last.revision) &&
      (forall k :: k in loads ==> k.revision <= last.revision) ==>
        ConversationAfter(shown, loads) == Some(last)
  {
    var n := |loads| - 1;
    if n > 0 {
      ConversationNeverGoesBack(shown, loads[..n], if l < n then l else 0);
    }
  }

  // ---------------------------------------------------------------- convergent

  // What an event says about one channel: a version of it, a read position, both or neither.
  function VersionIn(e: Event, id: string): Option<(int, string)> {
    match e
    case Poll(result) =>
      var found := Find(Page(result), id);
      if found.Some? then Some((found.value.revision, found.value.details)) else None
    case ReadNotice(_, _) => None
    case Saved(next) => if next.id == id then Some((next.revision, next.details)) else None
  }

  function PositionIn(e: Event, id: string): Option<Position> {
    match e
    case Poll(result) =>
      var found := Find(Page(result), id);
      if found.Some? then found.value.readPosition else None
    case ReadNotice(selected, p) => if selected == id then Some(p) else None
    case Saved(_) => None
  }

  predicate Comparable(p: Position, q: Position) {
    (p.revision <= q.revision && p.readSequence <= q.readSequence) ||
      (q.revision <= p.revision && q.readSequence <= p.readSequence)
  }

  ghost predicate HasVersion(shown: Item, events: seq<Event>, v: (int, string)) {
    v == (shown.revision, shown.details) || exists e :: e in events && VersionIn(e, shown.id) == Some(v)
  }

  ghost predicate HasPosition(shown: Item, events: seq<Event>, p: Position) {
    Some(p) == shown.readPosition || exists e :: e in events && PositionIn(e, shown.id) == Some(p)
  }

  // Everything comes from one server: a revision has one content, and read positions only grow.
  ghost predicate OneServer(shown: Item, events: seq<Event>) {
    (forall v, w :: HasVersion(shown, events, v) && HasVersion(shown, events, w) && v.0 == w.0 ==> v == w) &&
    (forall p, q :: HasPosition(shown, events, p) && HasPosition(shown, events, q) ==> Comparable(p, q))
  }

  // `last` shows the newest version and the furthest read position there has been.
  ghost predicate IsNewest(shown: Item, events: seq<Event>, last: Item) {
    last.id == shown.id &&
    HasVersion(shown, events, (last.revision, last.details)) &&
    (forall v :: HasVersion(shown, events, v) ==> v.0 <= last.revision) &&
    (last.readPosition.Some? ==> HasPosition(shown, events, last.readPosition.value)) &&
    (forall p :: HasPosition(shown, events, p) ==> NotBefore(Some(p), last.readPosition))
  }

  lemma OneMoreEvent(shown: Item, front: seq<Event>, e: Event)
    ensures forall v :: HasVersion(shown, front + [e], v) <==>
      HasVersion(shown, front, v) || VersionIn(e, shown.id) == Some(v)
    ensures forall p :: HasPosition(shown, front + [e], p) <==>
      HasPosition(shown, front, p) || PositionIn(e, shown.id) == Some(p)
  {
    forall v ensures HasVersion(shown, front + [e], v) <==>
      HasVersion(shown, front, v) || VersionIn(e, shown.id) == Some(v) {
      assert e in front + [e];
    }
    forall p ensures HasPosition(shown, front + [e], p) <==>
      HasPosition(shown, front, p) || PositionIn(e, shown.id) == Some(p) {
      assert e in front + [e];
    }
  }

  // One event keeps the newer of what is shown and what it brings, in both respects.
  lemma StepJoins(item: Item, e: Event)
    requires Keeps(e, item.id)
    requires PositionIn(e, item.id).Some? && item.readPosition.Some? ==>
      Comparable(PositionIn(e, item.id).value, item.readPosition.value)
    ensures ItemNext(item, e).id == item.id
    ensures var v := VersionIn(e, item.id);
      (ItemNext(item, e).revision, ItemNext(item, e).details) ==
      if v.Some? && v.value.0 >= item.revision then v.value else (item.revision, item.details)
    ensures var p := PositionIn(e, item.id);
      ItemNext(item, e).readPosition == if p.Some? && NotBefore(item.readPosition, p) then p else item.readPosition
  {
  }

  // What the list ends up showing of a channel is the newest there was of it.
  lemma {:induction false} ShownIsTheNewest(view: seq<Item>, events: seq<Event>, shown: Item)
    requires Find(view, shown.id) == Some(shown) && forall e :: e in events ==> Keeps(e, shown.id)
    requires OneServer(shown, events)
    ensures Find(Run(view, events), shown.id).Some?
    ensures IsNewest(shown, events, Find(Run(view, events), shown.id).value)
  {
    if events == [] {
      if shown.readPosition.Some? { assert HasPosition(shown, events, shown.readPosition.value); }
    } else {
      var front, last := events[..|events| - 1], events[|events| - 1];
      assert events == front + [last];
      OneServerEarlier(shown, front, last);
      ShownIsTheNewest(view, front, shown);
      assert Keeps(last, shown.id);
      ChannelStep(Run(view, front), last, Find(Run(view, front), shown.id).value);
      NewestStep(shown, front, last, Find(Run(view, front), shown.id).value);
    }
  }

  lemma OneServerEarlier(shown: Item, front: seq<Event>, e: Event)
    requires OneServer(shown, front + [e])
    ensures OneServer(shown, front)
  {
    OneMoreEvent(shown, front, e);
  }

  lemma NewestStep(shown: Item, front: seq<Event>, e: Event, item: Item)
    requires IsNewest(shown, front, item) && Keeps(e, shown.id) && OneServer(shown, front + [e])
    ensures IsNewest(shown, front + [e], ItemNext(item, e))
  {
    OneMoreEvent(shown, front, e);
    StepJoins(item, e);
  }

  lemma NewestIsUnique(shown: Item, events: seq<Event>, a: Item, b: Item)
    requires OneServer(shown, events) && IsNewest(shown, events, a) && IsNewest(shown, events, b)
    ensures a == b
  {
    assert HasVersion(shown, events, (a.revision, a.details)) && HasVersion(shown, events, (b.revision, b.details));
    if a.readPosition.Some? { assert HasPosition(shown, events, a.readPosition.value); }
    if b.readPosition.Some? { assert HasPosition(shown, events, b.readPosition.value); }
  }

  // Polls, saved changes and read notices of one server, in any order and any number of times
  // each: what the list ends up showing of a channel is the same.
  lemma OrderDoesNotMatter(view: seq<Item>, events: seq<Event>, reordered: seq<Event>, shown: Item)
    requires Find(view, shown.id) == Some(shown) && forall e :: e in events ==> Keeps(e, shown.id)
    requires forall e :: e in events <==> e in reordered
    requires OneServer(shown, events)
    ensures Find(Run(view, events), shown.id) == Find(Run(view, reordered), shown.id)
  {
    forall v ensures HasVersion(shown, events, v) <==> HasVersion(shown, reordered, v) {}
    forall p ensures HasPosition(shown, events, p) <==> HasPosition(shown, reordered, p) {}
    ShownIsTheNewest(view, events, shown);
    ShownIsTheNewest(view, reordered, shown);
    NewestIsUnique(shown, events, Find(Run(view, events), shown.id).value, Find(Run(view, reordered), shown.id).value);
  }

  // Two read notices that are ahead of what is shown, and of each other in different ways: the
  // first to arrive wins. In every other case their order does not matter.
  lemma NoticesCommuteIff(view: seq<Item>, shown: Item, p: Position, q: Position)
    requires Find(view, shown.id) == Some(shown)
    ensures (NotBefore(shown.readPosition, Some(p)) && NotBefore(shown.readPosition, Some(q)) ==> Comparable(p, q)) <==>
      Find(Run(view, [ReadNotice(shown.id, p), ReadNotice(shown.id, q)]), shown.id) ==
      Find(Run(view, [ReadNotice(shown.id, q), ReadNotice(shown.id, p)]), shown.id)
  {
    TwoNotices(view, shown, p, q);
    TwoNotices(view, shown, q, p);
  }

  lemma TwoNotices(view: seq<Item>, shown: Item, p: Position, q: Position)
    requires Find(view, shown.id) == Some(shown)
    ensures Find(Run(view, [ReadNotice(shown.id, p), ReadNotice(shown.id, q)]), shown.id) ==
      Some(Noticed(Noticed(shown, p), q))
  {
    var both := [ReadNotice(shown.id, p), ReadNotice(shown.id, q)];
    assert both[..1] == [both[0]] && [both[0]][..0] == [];
    assert Run(view, [both[0]]) == Next(view, both[0]);
    ChannelStep(view, both[0], shown);
    ChannelStep(Next(view, both[0]), both[1], Noticed(shown, p));
  }

  // ---------------------------------------------------------------- channels that come and go

  lemma {:induction false} RunSplits(view: seq<Item>, events: seq<Event>, i: int)
    requires 0 <= i <= |events|
    ensures Run(view, events) == Run(Run(view, events[..i]), events[i..])
  {
    var n := |events| - 1;
    if i <= n {
      var rest := events[i..];
      RunSplits(view, events[..n], i);
      assert events[..n][..i] == events[..i];
      assert events[..n][i..] == rest[..|rest| - 1] && rest[|rest| - 1] == events[n];
    } else {
      assert events[..i] == events && events[i..] == [];
    }
  }

  // The last poll decides whether a channel is on the page; before any, the page as it was.
  predicate Listed(view: seq<Item>, events: seq<Event>, id: string) {
    if events == [] then Find(view, id).Some?
    else
      var last := events[|events| - 1];
      if last.Poll? then Find(Page(last.result), id).Some? else Listed(view, events[..|events| - 1], id)
  }

  lemma {:induction false} ShownIffListed(view: seq<Item>, events: seq<Event>, id: string)
    ensures Find(Run(view, events), id).Some? <==> Listed(view, events, id)
  {
    if events != [] {
      var front, last := events[..|events| - 1], events[|events| - 1];
      ShownIffListed(view, front, id);
      match last
      case Poll(result) => FindInMap(Page(result), Polled(Run(view, front), result), id);
      case ReadNotice(_, _) => FindInMap(Run(view, front), Next(Run(view, front), last), id);
      case Saved(_) => FindInMap(Run(view, front), Next(Run(view, front), last), id);
    }
  }

  // The last of these events is the poll that brings the channel onto the page, as that poll has
  // it; or there are none yet, and it is on the page.
  predicate Enters(view: seq<Item>, events: seq<Event>, id: string) {
    Find(Run(view, events), id).Some? &&
    (events != [] ==>
      var n := |events| - 1;
      Find(Run(view, events[..n]), id).None? && events[n].Poll? &&
      Find(Run(view, events), id) == Find(Page(events[n].result), id))
  }

  predicate AllKeep(events: seq<Event>, id: string) {
    forall e :: e in events ==> Keeps(e, id)
  }

  // The channel came onto the page with the first `i` events and has stayed since.
  predicate CameAt(view: seq<Item>, events: seq<Event>, id: string, i: int) {
    0 <= i <= |events| && Enters(view, events[..i], id) && AllKeep(events[i..], id)
  }

  lemma ComesAsPolled(view: seq<Item>, result: seq<Item>, id: string)
    requires Find(view, id).None?
    ensures Find(Polled(view, result), id) == Find(Page(result), id)
  {
    FindInMap(Page(result), Polled(view, result), id);
  }

  lemma {:induction false} WhenItCame(view: seq<Item>, events: seq<Event>, id: string) returns (i: int)
    requires Find(Run(view, events), id).Some?
    ensures CameAt(view, events, id, i)
  {
    var n := |events| - 1;
    assert events[..|events|] == events;
    if events == [] {
      i := 0;
    } else if Find(Run(view, events[..n]), id).Some? {
      i := WhenItCame(view, events[..n], id);
      ShownIffListed(view, events, id);
      CameEarlier(view, events, id, i);
    } else {
      i := n + 1;
      ShownIffListed(view, events, id);
      ShownIffListed(view, events[..n], id);
      ComesAsPolled(Run(view, events[..n]), events[n].result, id);
    }
  }

  lemma CameEarlier(view: seq<Item>, events: seq<Event>, id: string, i: int)
    requires events != [] && CameAt(view, events[..|events| - 1], id, i) && Keeps(events[|events| - 1], id)
    ensures CameAt(view, events, id, i)
  {
    var n := |events| - 1;
    assert events[..n][..i] == events[..i];
    assert events[i..] == events[..n][i..] + [events[n]];
  }

  // Whatever polls left the channel out before: what is shown of it is the newest there has been
  // since it last came onto the page.
  lemma ShownIsTheNewestSince(view: seq<Item>, events: seq<Event>, id: string, i: int)
    requires CameAt(view, events, id, i) && OneServer(Find(Run(view, events[..i]), id).value, events[i..])
    ensures Find(Run(view, events), id).Some?
    ensures IsNewest(Find(Run(view, events[..i]), id).value, events[i..], Find(Run(view, events), id).value)
  {
    RunSplits(view, events, i);
    ShownIsTheNewest(Run(view, events[..i]), events[i..], Find(Run(view, events[..i]), id).value);
  }

  // Something at least as new as `item` has been seen, in both respects.
  ghost predicate Reaches(shown: Item, events: seq<Event>, item: Item) {
    (exists v :: HasVersion(shown, events, v) && v.0 >= item.revision) &&
    (item.readPosition.Some? ==> exists p :: HasPosition(shown, events, p) && NotBefore(item.readPosition, Some(p)))
  }

  // A channel is shown older than it was shown before (at event j) if and only if nothing that new
  // has been seen since it last came onto the page; and then it came after that.
  lemma GoesBackIff(view: seq<Item>, events: seq<Event>, id: string, i: int, j: int)
    requires CameAt(view, events, id, i) && 0 <= j <= |events| && Find(Run(view, events[..j]), id).Some?
    requires OneServer(Find(Run(view, events[..i]), id).value, events[i..])
    ensures Find(Run(view, events), id).Some?
    ensures var since, before, now := Find(Run(view, events[..i]), id).value, Find(Run(view, events[..j]), id).value,
      Find(Run(view, events), id).value;
      (!Advances(before, now) <==> !Reaches(since, events[i..], before)) && (!Advances(before, now) ==> j < i)
  {
    var since, before := Find(Run(view, events[..i]), id).value, Find(Run(view, events[..j]), id).value;
    ShownIsTheNewestSince(view, events, id, i);
    NewestReaches(since, events[i..], Find(Run(view, events), id).value, before);
    if i <= j {
      RunSplits(view, events, j);
      DisplayNeverGoesBack(Run(view, events[..j]), events[j..], before);
    }
  }

  lemma NewestReaches(shown: Item, events: seq<Event>, last: Item, item: Item)
    requires IsNewest(shown, events, last) && item.id == last.id
    ensures Advances(item, last) <==> Reaches(shown, events, item)
  {
    if Advances(item, last) {
      assert HasVersion(shown, events, (last.revision, last.details));
      if item.readPosition.Some? {
        assert HasPosition(shown, events, last.readPosition.value);
      }
    }
  }

  // ---------------------------------------------------------------- the whole page

  // The last poll of a list of events.
  function LastPoll(events: seq<Event>): Option<seq<Item>> {
    if events == [] then None
    else
      var last := events[|events| - 1];
      if last.Poll? then Some(last.result) else LastPoll(events[..|events| - 1])
  }

  predicate DistinctItems(items: seq<Item>) {
    forall i, j :: 0 <= i < j < |items| ==> items[i].id != items[j].id
  }

  // The page lists the channels of the last poll, in its order: all of them up to twenty.
  lemma {:induction false} PageIsLastPoll(view: seq<Item>, events: seq<Event>)
    requires LastPoll(events).Some?
    ensures var result, shown := LastPoll(events).value, Run(view, events);
      |shown| <= |result| && (if |result| > 20 then |shown| == 20 else |shown| == |result|) &&
      forall k :: 0 <= k < |shown| ==> shown[k].id == result[k].id
  {
    var front, last := events[..|events| - 1], events[|events| - 1];
    if !last.Poll? {
      PageIsLastPoll(view, front);
    }
  }

  lemma FindDistinct(items: seq<Item>, k: int)
    requires DistinctItems(items) && 0 <= k < |items|
    ensures Find(items, items[k].id) == Some(items[k])
  {
  }

  // Two ways for the same events to arrive that end in the same poll, whose channels were on the
  // page all along: the two pages are the same, item for item.
  lemma SamePage(view: seq<Item>, events: seq<Event>, reordered: seq<Event>)
    requires forall e :: e in events <==> e in reordered
    requires LastPoll(events).Some? && LastPoll(reordered) == LastPoll(events)
    requires DistinctItems(Page(LastPoll(events).value))
    requires forall item :: item in Page(LastPoll(events).value) ==> StaysFrom(view, events, item.id)
    ensures Run(view, events) == Run(view, reordered)
  {
    PageIsLastPoll(view, events);
    PageIsLastPoll(view, reordered);
    forall k | 0 <= k < |Run(view, events)| ensures Run(view, events)[k] == Run(view, reordered)[k] {
      var item := Page(LastPoll(events).value)[k];
      assert item in Page(LastPoll(events).value);
      SameItem(view, events, reordered, item.id, k);
    }
  }

  lemma SameItem(view: seq<Item>, events: seq<Event>, reordered: seq<Event>, id: string, k: int)
    requires forall e :: e in events <==> e in reordered
    requires StaysFrom(view, events, id)
    requires DistinctItems(Run(view, events)) && DistinctItems(Run(view, reordered))
    requires 0 <= k < |Run(view, events)| && Run(view, events)[k].id == id
    requires 0 <= k < |Run(view, reordered)| && Run(view, reordered)[k].id == id
    ensures Run(view, events)[k] == Run(view, reordered)[k]
  {
    OrderDoesNotMatter(view, events, reordered, Find(view, id).value);
    FindDistinct(Run(view, events), k);
    FindDistinct(Run(view, reordered), k);
  }

  ghost predicate StaysFrom(view: seq<Item>, events: seq<Event>, id: string) {
    Find(view, id).Some? && (forall e :: e in events ==> Keeps(e, id)) && OneServer(Find(view, id).value, events)
  }
}
