/**
  Rosters, the ordered JavaScript `Map` they are merged in, and the three-way merge itself
  (desktop/src/TeamRoster.tsx).

  An assignment carries `owns`, the topics the server stores beside the four fields the editor
  knows about. The editor passes them along but never looks at them, which matters below.
 */
module Rosters {
  import opened Options

  datatype Assignment = Assignment(
    id: string, roleId: string, agentId: string, displayName: Option<string>, owns: seq<string>)

  type Roster = seq<Assignment>

  function NameOf(a: Assignment): string {
    match a.displayName
    case None => ""
    case Some(name) => name
  }

  // The editor's comparison: a missing display name is the empty one, `owns` is not compared.
  predicate Equal(a: Option<Assignment>, b: Option<Assignment>) {
    match (a, b)
    case (None, None) => true
    case (Some(x), Some(y)) =>
      x.id == y.id && x.roleId == y.roleId && x.agentId == y.agentId && NameOf(x) == NameOf(y)
    case _ => false
  }

  // `items.find(item => item.id === id)`
  function Find(items: Roster, id: string): Option<Assignment> {
    if items == [] then None
    else if items[0].id == id then Some(items[0])
    else Find(items[1..], id)
  }

  predicate UniqueIds(items: Roster) {
    items == [] || (Find(items[1..], items[0].id) == None && UniqueIds(items[1..]))
  }

  predicate Agree(a: Roster, b: Roster, id: string) {
    Equal(Find(a, id), Find(b, id))
  }

  predicate SameRoster(a: Roster, b: Roster) {
    |a| == |b| && forall i :: 0 <= i < |a| ==> Equal(Some(a[i]), Find(b, a[i].id))
  }

  // ---------------------------------------------------------------- the insertion-ordered Map

  // `map.set(item.id, item)`: an existing key keeps its place, a new one goes last.
  function Put(items: Roster, item: Assignment): Roster {
    if items == [] then [item]
    else if items[0].id == item.id then [item] + items[1..]
    else [items[0]] + Put(items[1..], item)
  }

  // `map.delete(id)`
  function Remove(items: Roster, id: string): Roster {
    if items == [] then []
    else if items[0].id == id then items[1..]
    else [items[0]] + Remove(items[1..], id)
  }

  // `new Map(items.map(item => [item.id, item]))`
  function MapOf(items: Roster): Roster {
    if items == [] then [] else Put(MapOf(items[..|items| - 1]), items[|items| - 1])
  }

  lemma {:induction false} FindHasId(items: Roster, id: string)
    ensures Find(items, id).Some? ==> Find(items, id).value.id == id && Find(items, id).value in items
  {
    if items != [] && items[0].id != id {
      FindHasId(items[1..], id);
    }
  }

  lemma {:induction false} FindSome(items: Roster, i: nat)
    requires i < |items|
    ensures Find(items, items[i].id).Some?
  {
    if i > 0 {
      FindSome(items[1..], i - 1);
    }
  }

  lemma {:induction false} FindAt(items: Roster, i: nat)
    requires i < |items| && UniqueIds(items)
    ensures Find(items, items[i].id) == Some(items[i])
  {
    if i > 0 {
      FindSome(items[1..], i - 1);
      FindAt(items[1..], i - 1);
    }
  }

  lemma {:induction false} FindAppend(a: Roster, b: Roster, id: string)
    ensures Find(a + b, id) == if Find(a, id).Some? then Find(a, id) else Find(b, id)
  {
    if a == [] {
      assert a + b == b;
    } else {
      assert (a + b)[1..] == a[1..] + b;
      FindAppend(a[1..], b, id);
    }
  }

  lemma {:induction false} FindPut(items: Roster, item: Assignment, id: string)
    ensures Find(Put(items, item), id) == if id == item.id then Some(item) else Find(items, id)
  {
    if items != [] && items[0].id != item.id {
      FindPut(items[1..], item, id);
    }
  }

  lemma {:induction false} FindRemove(items: Roster, gone: string, id: string)
    requires UniqueIds(items)
    ensures Find(Remove(items, gone), id) == if id == gone then None else Find(items, id)
  {
    if items != [] && items[0].id != gone {
      FindRemove(items[1..], gone, id);
    }
  }

  lemma {:induction false} UniquePut(items: Roster, item: Assignment)
    requires UniqueIds(items)
    ensures UniqueIds(Put(items, item))
  {
    if items != [] && items[0].id != item.id {
      FindPut(items[1..], item, items[0].id);
      UniquePut(items[1..], item);
    }
  }

  lemma {:induction false} UniqueRemove(items: Roster, gone: string)
    requires UniqueIds(items)
    ensures UniqueIds(Remove(items, gone))
  {
    if items != [] && items[0].id != gone {
      FindRemove(items[1..], gone, items[0].id);
      UniqueRemove(items[1..], gone);
    }
  }

  lemma {:induction false} PutNew(items: Roster, item: Assignment)
    requires Find(items, item.id) == None
    ensures Put(items, item) == items + [item]
  {
    if items != [] {
      PutNew(items[1..], item);
    }
  }

  lemma {:induction false} UniqueSplit(a: Roster, b: Roster)
    requires UniqueIds(a + b)
    ensures UniqueIds(a) && UniqueIds(b)
    ensures forall x :: x in b ==> Find(a, x.id) == None
  {
    if a == [] {
      assert a + b == b;
    } else {
      assert (a + b)[1..] == a[1..] + b;
      UniqueSplit(a[1..], b);
      FindAppend(a[1..], b, a[0].id);
      forall x | x in b ensures Find(a, x.id) == None {
        var i :| 0 <= i < |b| && b[i] == x;
        FindSome(b, i);
        FindAppend(a[1..], b, x.id);
      }
    }
  }

  // A Map never holds a key twice, and a roster without duplicates comes through it unchanged.
  lemma {:induction false} MapOfIsUnique(items: Roster)
    ensures UniqueIds(MapOf(items))
    ensures UniqueIds(items) ==> MapOf(items) == items
  {
    if items != [] {
      var front, last := items[..|items| - 1], items[|items| - 1];
      MapOfIsUnique(front);
      UniquePut(MapOf(front), last);
      if UniqueIds(items) {
        assert items == front + [last];
        UniqueSplit(front, [last]);
        PutNew(front, last);
      }
    }
  }

  // ---------------------------------------------------------------- distinct ids, in first order

  function IdsOf(items: Roster): (ids: seq<string>)
    ensures |ids| == |items| && forall i :: 0 <= i < |items| ==> ids[i] == items[i].id
  {
    seq(|items|, i requires 0 <= i < |items| => items[i].id)
  }

  // `new Set(ids)`, iterated
  function Distinct(ids: seq<string>): seq<string> {
    if ids == [] then []
    else
      var rest := Distinct(ids[..|ids| - 1]);
      if ids[|ids| - 1] in rest then rest else rest + [ids[|ids| - 1]]
  }

  predicate NoRepeats(ids: seq<string>) {
    forall i, j :: 0 <= i < j < |ids| ==> ids[i] != ids[j]
  }

  lemma {:induction false} DistinctFacts(ids: seq<string>)
    ensures NoRepeats(Distinct(ids))
    ensures forall id :: id in Distinct(ids) <==> id in ids
  {
    if ids != [] {
      DistinctFacts(ids[..|ids| - 1]);
      assert ids == ids[..|ids| - 1] + [ids[|ids| - 1]];
    }
  }

  lemma {:induction false} InIdsOf(items: Roster, id: string)
    ensures id in IdsOf(items) <==> Find(items, id).Some?
  {
    if items != [] {
      InIdsOf(items[1..], id);
      assert IdsOf(items) == [items[0].id] + IdsOf(items[1..]);
    }
  }

  // ---------------------------------------------------------------- the merge

  datatype Conflict = Conflict(id: string, mine: Option<Assignment>, saved: Option<Assignment>)

  datatype Merged = Merged(roster: Roster, conflicts: seq<Conflict>)

  // What the three-way rule says about one id, given its three versions.
  predicate Edited(base: Option<Assignment>, mine: Option<Assignment>) {
    !Equal(base, mine)
  }

  predicate Conflicting(base: Option<Assignment>, mine: Option<Assignment>, saved: Option<Assignment>) {
    Edited(base, mine) && !Equal(saved, base) && !Equal(saved, mine)
  }

  function Rule(base: Option<Assignment>, mine: Option<Assignment>, saved: Option<Assignment>): Option<Assignment> {
    if Edited(base, mine) && !Conflicting(base, mine, saved) then mine else saved
  }

  // One turn of the loop.
  function MergeStep(base: Roster, mine: Roster, acc: Merged, id: string): Merged {
    var before, proposed, current := Find(base, id), Find(mine, id), Find(acc.roster, id);
    if Equal(before, proposed) then acc
    else if !Equal(current, before) && !Equal(current, proposed) then
      acc.(conflicts := acc.conflicts + [Conflict(id, proposed, current)])
    else if proposed.Some? then acc.(roster := Put(acc.roster, proposed.value))
    else acc.(roster := Remove(acc.roster, id))
  }

  function MergeAll(base: Roster, mine: Roster, start: Merged, ids: seq<string>): Merged {
    if ids == [] then start
    else MergeStep(base, mine, MergeAll(base, mine, start, ids[..|ids| - 1]), ids[|ids| - 1])
  }

  function Touched(base: Roster, mine: Roster): seq<string> {
    Distinct(IdsOf(base + mine))
  }

  function Reconciled(base: Roster, mine: Roster, saved: Roster): Merged {
    MergeAll(base, mine, Merged(MapOf(saved), []), Touched(base, mine))
  }

  predicate ConflictsAt(base: Roster, mine: Roster, saved: Roster, id: string) {
    Conflicting(Find(base, id), Find(mine, id), Find(saved, id))
  }

  lemma MergeStepAt(base: Roster, mine: Roster, acc: Merged, at: string, id: string)
    requires UniqueIds(acc.roster)
    ensures UniqueIds(MergeStep(base, mine, acc, at).roster)
    ensures Find(MergeStep(base, mine, acc, at).roster, id)
         == if id == at then Rule(Find(base, id), Find(mine, id), Find(acc.roster, id)) else Find(acc.roster, id)
  {
    FindHasId(mine, at);
    if Find(mine, at).Some? {
      FindPut(acc.roster, Find(mine, at).value, id);
      UniquePut(acc.roster, Find(mine, at).value);
    } else {
      FindRemove(acc.roster, at, id);
      UniqueRemove(acc.roster, at);
    }
  }

  predicate IsConflict(base: Roster, mine: Roster, saved: Roster, c: Conflict) {
    ConflictsAt(base, mine, saved, c.id) && c == Conflict(c.id, Find(mine, c.id), Find(saved, c.id))
  }

  lemma {:induction false} MergeAllAt(base: Roster, mine: Roster, start: Merged, ids: seq<string>, id: string)
    requires NoRepeats(ids) && UniqueIds(start.roster)
    ensures UniqueIds(MergeAll(base, mine, start, ids).roster)
    ensures Find(MergeAll(base, mine, start, ids).roster, id)
         == if id in ids then Rule(Find(base, id), Find(mine, id), Find(start.roster, id)) else Find(start.roster, id)
  {
    if ids != [] {
      var front, last := ids[..|ids| - 1], ids[|ids| - 1];
      assert ids == front + [last];
      MergeAllAt(base, mine, start, front, id);
      MergeStepAt(base, mine, MergeAll(base, mine, start, front), last, id);
    }
  }

  // The conflicts, in order: each once, with the two versions the user is shown.
  function ConflictList(base: Roster, mine: Roster, saved: Roster, ids: seq<string>): seq<Conflict> {
    if ids == [] then []
    else
      var front, id := ConflictList(base, mine, saved, ids[..|ids| - 1]), ids[|ids| - 1];
      if ConflictsAt(base, mine, saved, id) then front + [Conflict(id, Find(mine, id), Find(saved, id))] else front
  }

  lemma {:induction false} MergeAllConflicts(base: Roster, mine: Roster, start: Merged, ids: seq<string>)
    requires NoRepeats(ids) && UniqueIds(start.roster) && start.conflicts == []
    ensures MergeAll(base, mine, start, ids).conflicts == ConflictList(base, mine, start.roster, ids)
  {
    if ids != [] {
      var front, last := ids[..|ids| - 1], ids[|ids| - 1];
      assert last !in front;
      MergeAllConflicts(base, mine, start, front);
      MergeAllAt(base, mine, start, front, last);
    }
  }

  lemma {:induction false} InConflictList(base: Roster, mine: Roster, saved: Roster, ids: seq<string>, c: Conflict)
    ensures c in ConflictList(base, mine, saved, ids)
       <==> c.id in ids && IsConflict(base, mine, saved, c)
  {
    if ids != [] {
      assert ids == ids[..|ids| - 1] + [ids[|ids| - 1]];
      InConflictList(base, mine, saved, ids[..|ids| - 1], c);
    }
  }

  // The loop computes the per-id rule, whatever the three rosters are: the result never repeats
  // an id, every id gets what the rule says, and the conflicts are exactly the ids the rule
  // calls conflicting, each with both versions. (`MapOf(saved)` is `saved` when it has no duplicates.)
  lemma MergeRule(base: Roster, mine: Roster, saved: Roster)
    ensures UniqueIds(Reconciled(base, mine, saved).roster)
    ensures forall id :: Find(Reconciled(base, mine, saved).roster, id)
                      == Rule(Find(base, id), Find(mine, id), Find(MapOf(saved), id))
    ensures forall c :: c in Reconciled(base, mine, saved).conflicts <==> IsConflict(base, mine, MapOf(saved), c)
  {
    var start, ids := Merged(MapOf(saved), []), Touched(base, mine);
    MapOfIsUnique(saved);
    DistinctFacts(IdsOf(base + mine));
    MergeAllConflicts(base, mine, start, ids);
    MergeAllAt(base, mine, start, ids, "");
    forall id ensures id in ids <==> Find(base, id).Some? || Find(mine, id).Some? {
      InIdsOf(base + mine, id);
      FindAppend(base, mine, id);
    }
    forall id ensures Find(Reconciled(base, mine, saved).roster, id)
                   == Rule(Find(base, id), Find(mine, id), Find(MapOf(saved), id)) {
      MergeAllAt(base, mine, start, ids, id);
    }
    forall c ensures c in Reconciled(base, mine, saved).conflicts <==> IsConflict(base, mine, MapOf(saved), c) {
      InConflictList(base, mine, MapOf(saved), ids, c);
    }
  }

  // No id is listed as a conflict twice.
  lemma {:induction false} ConflictIdsAreDistinct(base: Roster, mine: Roster, saved: Roster, ids: seq<string>)
    requires NoRepeats(ids)
    ensures forall i, j :: 0 <= i < j < |ConflictList(base, mine, saved, ids)|
              ==> ConflictList(base, mine, saved, ids)[i].id != ConflictList(base, mine, saved, ids)[j].id
  {
    if ids != [] {
      var front := ids[..|ids| - 1];
      ConflictIdsAreDistinct(base, mine, saved, front);
      forall c | c in ConflictList(base, mine, saved, front) ensures c.id != ids[|ids| - 1] {
        InConflictList(base, mine, saved, front, c);
      }
    }
  }

  method Reconcile(base: Roster, mine: Roster, saved: Roster) returns (merged: Merged)
    ensures merged == Reconciled(base, mine, saved)
    ensures UniqueIds(merged.roster)
    ensures forall id :: Find(merged.roster, id) == Rule(Find(base, id), Find(mine, id), Find(MapOf(saved), id))
    ensures forall c :: c in merged.conflicts <==> IsConflict(base, mine, MapOf(saved), c)
  {
    var result := MapOf(saved);
    var conflicts: seq<Conflict> := [];
    var ids := Touched(base, mine);
    for k := 0 to |ids|
      invariant Merged(result, conflicts) == MergeAll(base, mine, Merged(MapOf(saved), []), ids[..k])
    {
      var id := ids[k];
      assert ids[..k + 1][..k] == ids[..k];
      var before, proposed, current := Find(base, id), Find(mine, id), Find(result, id);
      if Equal(before, proposed) {
        continue;
      }
      if !Equal(current, before) && !Equal(current, proposed) {
        conflicts := conflicts + [Conflict(id, proposed, current)];
      } else if proposed.Some? {
        result := Put(result, proposed.value);
      } else {
        result := Remove(result, id);
      }
    }
    assert ids[..|ids|] == ids;
    merged := Merged(result, conflicts);
    MergeRule(base, mine, saved);
  }

  // ---------------------------------------------------------------- differences

  function DiffFilter(base: Roster, roster: Roster, ids: seq<string>): seq<string> {
    if ids == [] then []
    else
      var front := DiffFilter(base, roster, ids[..|ids| - 1]);
      if Agree(base, roster, ids[|ids| - 1]) then front else front + [ids[|ids| - 1]]
  }

  // The list under "Changes to review".
  function Differences(base: Roster, roster: Roster): seq<string> {
    DiffFilter(base, roster, Touched(base, roster))
  }

  lemma {:induction false} InDiffFilter(base: Roster, roster: Roster, ids: seq<string>, id: string)
    ensures id in DiffFilter(base, roster, ids) <==> id in ids && !Agree(base, roster, id)
  {
    if ids != [] {
      assert ids == ids[..|ids| - 1] + [ids[|ids| - 1]];
      InDiffFilter(base, roster, ids[..|ids| - 1], id);
    }
  }

  lemma DifferencesExact(base: Roster, roster: Roster)
    ensures forall id :: id in Differences(base, roster) <==> !Agree(base, roster, id)
  {
    DistinctFacts(IdsOf(base + roster));
    forall id ensures id in Differences(base, roster) <==> !Agree(base, roster, id) {
      InDiffFilter(base, roster, Touched(base, roster), id);
      InIdsOf(base + roster, id);
      FindAppend(base, roster, id);
    }
  }

  // ---------------------------------------------------------------- sameRoster

  lemma {:induction false} Covered(a: Roster, b: Roster)
    requires UniqueIds(a) && UniqueIds(b) && |a| >= |b|
    requires forall x :: x in a ==> Find(b, x.id).Some?
    ensures |a| == |b| && forall y :: y in b ==> Find(a, y.id).Some?
  {
    if a != [] {
      var id := a[0].id;
      var b' := Remove(b, id);
      RemoveLength(b, id);
      UniqueRemove(b, id);
      forall x | x in a[1..] ensures Find(b', x.id).Some? {
        FindRemove(b, id, x.id);
        var i :| 0 <= i < |a[1..]| && a[1..][i] == x;
        FindSome(a[1..], i);
      }
      Covered(a[1..], b');
      forall y | y in b ensures Find(a, y.id).Some? {
        if y.id != id {
          var i :| 0 <= i < |b| && b[i] == y;
          FindAt(b, i);
          FindRemove(b, id, y.id);
          FindHasId(b', y.id);
        }
      }
    }
  }

  lemma {:induction false} RemoveLength(items: Roster, id: string)
    requires Find(items, id).Some?
    ensures |Remove(items, id)| == |items| - 1
  {
    if items[0].id != id {
      RemoveLength(items[1..], id);
    }
  }

  // Counting the entries and looking each one up is enough: `sameRoster` holds exactly when
  // the two rosters agree on every id, and then there is nothing to review.
  lemma SameRosterMeansNoDifferences(a: Roster, b: Roster)
    requires UniqueIds(a) && UniqueIds(b)
    ensures SameRoster(a, b) <==> forall id :: Agree(a, b, id)
    ensures SameRoster(a, b) <==> Differences(a, b) == []
  {
    DifferencesExact(a, b);
    if SameRoster(a, b) {
      forall x | x in a ensures Find(b, x.id).Some? {
        var i :| 0 <= i < |a| && a[i] == x;
        assert Equal(Some(a[i]), Find(b, a[i].id));
      }
      Covered(a, b);
      forall id ensures Agree(a, b, id) {
        FindHasId(a, id);
        FindHasId(b, id);
        if Find(a, id).Some? {
          var i :| 0 <= i < |a| && a[i] == Find(a, id).value;
          assert Equal(Some(a[i]), Find(b, a[i].id));
        }
      }
    }
    if forall id :: Agree(a, b, id) {
      if Differences(a, b) != [] {
        SomethingIn(Differences(a, b));
      }
      forall i | 0 <= i < |a| ensures Equal(Some(a[i]), Find(b, a[i].id)) {
        FindAt(a, i);
        assert Agree(a, b, a[i].id);
      }
      AgreeingLengths(a, b);
    }
  }

  lemma SomethingIn(ids: seq<string>)
    requires ids != []
    ensures exists id :: id in ids
  {
    assert ids[0] in ids;
  }

  // ---------------------------------------------------------------- in terms of the entries

  predicate Has(items: Roster, id: string) {
    exists i :: 0 <= i < |items| && items[i].id == id
  }

  // Another role or agent, or another name, where no name and the empty one are the same.
  predicate Unlike(x: Assignment, y: Assignment) {
    x.roleId != y.roleId || x.agentId != y.agentId ||
    (x.displayName != y.displayName && !({x.displayName, y.displayName} <= {None, Some("")}))
  }

  // One roster has the id and the other does not, or they have it with unlike entries.
  predicate Differ(a: Roster, b: Roster, id: string) {
    Has(a, id) != Has(b, id) ||
    exists i, j :: 0 <= i < |a| && 0 <= j < |b| && a[i].id == id == b[j].id && Unlike(a[i], b[j])
  }

  lemma FindIff(items: Roster, id: string)
    requires UniqueIds(items)
    ensures Find(items, id).Some? <==> Has(items, id)
    ensures forall x :: x in items && x.id == id ==> Find(items, id) == Some(x)
    ensures Find(items, id).Some? ==> Find(items, id).value in items && Find(items, id).value.id == id
  {
    FindHasId(items, id);
    forall x | x in items && x.id == id ensures Find(items, id) == Some(x) {
      var i :| 0 <= i < |items| && items[i] == x;
      FindAt(items, i);
    }
    if Has(items, id) {
      var i :| 0 <= i < |items| && items[i].id == id;
      assert items[i] in items;
    }
  }

  lemma DifferIff(a: Roster, b: Roster, id: string)
    requires UniqueIds(a) && UniqueIds(b)
    ensures Differ(a, b, id) <==> !Agree(a, b, id)
  {
    FindIff(a, id);
    FindIff(b, id);
    if Has(a, id) && Has(b, id) {
      var i :| 0 <= i < |a| && a[i] == Find(a, id).value;
      var j :| 0 <= j < |b| && b[j] == Find(b, id).value;
      assert Unlike(a[i], b[j]) <==> !Agree(a, b, id);
      forall k, l | 0 <= k < |a| && 0 <= l < |b| && a[k].id == id == b[l].id ensures a[k] == a[i] && b[l] == b[j] {
        assert a[k] in a && b[l] in b;
      }
    }
  }

  // What is listed for review: the ids one side lacks, and those with another role, agent or name.
  lemma ListedForReviewIff(base: Roster, roster: Roster, id: string)
    requires UniqueIds(base) && UniqueIds(roster)
    ensures id in Differences(base, roster) <==> Differ(base, roster, id)
  {
    DifferencesExact(base, roster);
    DifferIff(base, roster, id);
  }

  lemma MergedAt(base: Roster, mine: Roster, saved: Roster, id: string)
    requires UniqueIds(saved)
    ensures var m := Reconciled(base, mine, saved);
      UniqueIds(m.roster) && Find(m.roster, id) == Rule(Find(base, id), Find(mine, id), Find(saved, id)) &&
      forall c :: c in m.conflicts && c.id == id <==>
        ConflictsAt(base, mine, saved, id) && c == Conflict(id, Find(mine, id), Find(saved, id))
  {
    MergeRule(base, mine, saved);
    MapOfIsUnique(saved);
    var m := Reconciled(base, mine, saved);
    forall c ensures c in m.conflicts && c.id == id <==>
      ConflictsAt(base, mine, saved, id) && c == Conflict(id, Find(mine, id), Find(saved, id)) {
      assert c in m.conflicts <==> IsConflict(base, mine, saved, c);
    }
  }

  // All three have something else for the id: the draft edited it and somebody else did, otherwise.
  predicate Contested(base: Roster, mine: Roster, saved: Roster, id: string) {
    Differ(base, mine, id) && Differ(saved, base, id) && Differ(saved, mine, id)
  }

  lemma ContestedIff(base: Roster, mine: Roster, saved: Roster, id: string)
    requires UniqueIds(base) && UniqueIds(mine) && UniqueIds(saved)
    ensures Contested(base, mine, saved, id) <==> ConflictsAt(base, mine, saved, id)
    ensures Differ(base, mine, id) <==> Edited(Find(base, id), Find(mine, id))
  {
    DifferIff(base, mine, id);
    DifferIff(saved, base, id);
    DifferIff(saved, mine, id);
  }

  // What a merge makes of an id: the draft's entry, or its absence, if the draft edited the id and
  // it is not contested, and what is saved otherwise.
  lemma MergeByEntries(base: Roster, mine: Roster, saved: Roster, id: string)
    requires UniqueIds(base) && UniqueIds(mine) && UniqueIds(saved)
    ensures var winner := if Differ(base, mine, id) && !Contested(base, mine, saved, id) then mine else saved;
      forall x: Assignment :: x.id == id ==> (x in Reconciled(base, mine, saved).roster <==> x in winner)
  {
    MergedAt(base, mine, saved, id);
    ContestedIff(base, mine, saved, id);
    EntryIffFound(Reconciled(base, mine, saved).roster, id);
    EntryIffFound(mine, id);
    EntryIffFound(saved, id);
  }

  // The user is asked about an id exactly if it is contested, and shown both entries.
  lemma ConflictByEntries(base: Roster, mine: Roster, saved: Roster, id: string)
    requires UniqueIds(base) && UniqueIds(mine) && UniqueIds(saved)
    ensures var conflicts := Reconciled(base, mine, saved).conflicts;
      Contested(base, mine, saved, id) <==> exists c :: c in conflicts && c.id == id
    ensures forall c :: c in Reconciled(base, mine, saved).conflicts && c.id == id ==>
      (forall x: Assignment :: x.id == id ==>
        (x in mine <==> c.mine == Some(x)) && (x in saved <==> c.saved == Some(x)))
  {
    MergedAt(base, mine, saved, id);
    ContestedIff(base, mine, saved, id);
    EntryIffFound(mine, id);
    EntryIffFound(saved, id);
    if Contested(base, mine, saved, id) {
      assert Conflict(id, Find(mine, id), Find(saved, id)) in Reconciled(base, mine, saved).conflicts;
    }
  }

  lemma EntryIffFound(items: Roster, id: string)
    requires UniqueIds(items)
    ensures forall x: Assignment :: x.id == id ==> (x in items <==> Find(items, id) == Some(x))
  {
    FindIff(items, id);
  }

  lemma AgreeingLengths(a: Roster, b: Roster)
    requires UniqueIds(a) && UniqueIds(b)
    requires forall id :: Agree(a, b, id)
    ensures |a| == |b|
  {
    forall x | x in a ensures Find(b, x.id).Some? {
      var i :| 0 <= i < |a| && a[i] == x;
      FindAt(a, i);
      assert Agree(a, b, x.id);
    }
    forall y | y in b ensures Find(a, y.id).Some? {
      var i :| 0 <= i < |b| && b[i] == y;
      FindAt(b, i);
      assert Agree(a, b, y.id);
    }
    if |a| >= |b| { Covered(a, b); } else { Covered(b, a); }
  }
}
