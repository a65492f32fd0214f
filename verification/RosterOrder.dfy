/**
  The order in which the roster editor lists things: merged assignments, conflicts and differences
  come as their ids do in the rosters they are made of.
 */
module RosterOrder {
  import opened Options
  import opened Rosters

  // Where an id comes first, or the end if it does not come.
  function PlaceOf(ids: seq<string>, id: string): (n: nat)
    ensures n <= |ids| && (n < |ids| <==> id in ids)
    ensures n < |ids| ==> ids[n] == id && id !in ids[..n]
  {
    if ids == [] then 0
    else if ids[0] == id then 0
    else
      assert ids == [ids[0]] + ids[1..];
      1 + PlaceOf(ids[1..], id)
  }

  // They come as in `ids`, none twice.
  predicate ComeAsIn(list: seq<string>, ids: seq<string>) {
    (forall i :: 0 <= i < |list| ==> list[i] in ids) &&
    forall i, j :: 0 <= i < j < |list| ==> PlaceOf(ids, list[i]) < PlaceOf(ids, list[j])
  }

  lemma {:induction false} PlaceInFront(ids: seq<string>, more: seq<string>, id: string)
    ensures PlaceOf(ids + more, id) == if id in ids then PlaceOf(ids, id) else |ids| + PlaceOf(more, id)
  {
    if ids == [] {
      assert ids + more == more;
    } else {
      assert (ids + more)[1..] == ids[1..] + more;
      assert ids == [ids[0]] + ids[1..];
      if ids[0] != id {
        PlaceInFront(ids[1..], more, id);
      }
    }
  }

  lemma ComeAsInMore(list: seq<string>, ids: seq<string>, more: seq<string>)
    requires ComeAsIn(list, ids)
    ensures ComeAsIn(list, ids + more)
  {
    forall i | 0 <= i < |list| ensures PlaceOf(ids + more, list[i]) == PlaceOf(ids, list[i]) {
      PlaceInFront(ids, more, list[i]);
    }
  }

  lemma NewComesLast(list: seq<string>, ids: seq<string>, id: string)
    requires ComeAsIn(list, ids) && id !in ids
    ensures ComeAsIn(list + [id], ids + [id])
  {
    ComeAsInMore(list, ids, [id]);
    PlaceInFront(ids, [id], id);
    forall i | 0 <= i < |list| ensures PlaceOf(ids + [id], list[i]) < |ids| {
      PlaceInFront(ids, [id], list[i]);
    }
  }

  // ---------------------------------------------------------------- repeats do not matter

  lemma {:induction false} DistinctKeepsOrder(ids: seq<string>)
    ensures ComeAsIn(Distinct(ids), ids)
  {
    if ids != [] {
      var n := |ids| - 1;
      DistinctKeepsOrder(ids[..n]);
      DistinctFacts(ids[..n]);
      assert ids == ids[..n] + [ids[n]];
      if ids[n] in Distinct(ids[..n]) {
        ComeAsInMore(Distinct(ids[..n]), ids[..n], [ids[n]]);
      } else {
        NewComesLast(Distinct(ids[..n]), ids[..n], ids[n]);
      }
    }
  }

  lemma {:induction false} PlaceInOrdered(list: seq<string>, i: nat)
    requires i < |list| && NoRepeats(list)
    ensures PlaceOf(list, list[i]) == i
  {
    if i > 0 {
      assert list[0] != list[i];
      PlaceInOrdered(list[1..], i - 1);
    }
  }

  // What comes as in a list that itself comes as in another comes as in that.
  lemma ComeAsInBoth(list: seq<string>, some: seq<string>, all: seq<string>)
    requires ComeAsIn(list, some) && ComeAsIn(some, all) && NoRepeats(some)
    ensures ComeAsIn(list, all)
  {
    forall i, j | 0 <= i < j < |list| ensures PlaceOf(all, list[i]) < PlaceOf(all, list[j]) {
      var k, l := PlaceOf(some, list[i]), PlaceOf(some, list[j]);
      assert some[k] == list[i] && some[l] == list[j];
    }
  }

  // ---------------------------------------------------------------- differences and conflicts

  lemma {:induction false} DiffFilterInOrder(base: Roster, roster: Roster, ids: seq<string>)
    requires NoRepeats(ids)
    ensures ComeAsIn(DiffFilter(base, roster, ids), ids)
  {
    if ids != [] {
      var n := |ids| - 1;
      DiffFilterInOrder(base, roster, ids[..n]);
      assert ids == ids[..n] + [ids[n]];
      ComeAsInMore(DiffFilter(base, roster, ids[..n]), ids[..n], [ids[n]]);
      NewComesLast(DiffFilter(base, roster, ids[..n]), ids[..n], ids[n]);
    }
  }

  // What is listed for review comes as in the base, and then as in the draft.
  lemma DifferencesInOrder(base: Roster, roster: Roster)
    ensures ComeAsIn(Differences(base, roster), IdsOf(base + roster))
  {
    DistinctFacts(IdsOf(base + roster));
    DistinctKeepsOrder(IdsOf(base + roster));
    DiffFilterInOrder(base, roster, Touched(base, roster));
    ComeAsInBoth(Differences(base, roster), Touched(base, roster), IdsOf(base + roster));
  }

  function ConflictIds(conflicts: seq<Conflict>): seq<string> {
    if conflicts == [] then [] else ConflictIds(conflicts[..|conflicts| - 1]) + [conflicts[|conflicts| - 1].id]
  }

  lemma {:induction false} ConflictListInOrder(base: Roster, mine: Roster, saved: Roster, ids: seq<string>)
    requires NoRepeats(ids)
    ensures ComeAsIn(ConflictIds(ConflictList(base, mine, saved, ids)), ids)
  {
    if ids != [] {
      var n := |ids| - 1;
      var front := ConflictList(base, mine, saved, ids[..n]);
      ConflictListInOrder(base, mine, saved, ids[..n]);
      assert ids == ids[..n] + [ids[n]];
      ComeAsInMore(ConflictIds(front), ids[..n], [ids[n]]);
      NewComesLast(ConflictIds(front), ids[..n], ids[n]);
    }
  }

  // So do the conflicts the user is asked about.
  lemma ConflictsInOrder(base: Roster, mine: Roster, saved: Roster)
    ensures ComeAsIn(ConflictIds(Reconciled(base, mine, saved).conflicts), IdsOf(base + mine))
  {
    var ids := Touched(base, mine);
    DistinctFacts(IdsOf(base + mine));
    DistinctKeepsOrder(IdsOf(base + mine));
    MapOfIsUnique(saved);
    MergeAllConflicts(base, mine, Merged(MapOf(saved), []), ids);
    ConflictListInOrder(base, mine, MapOf(saved), ids);
    ComeAsInBoth(ConflictIds(Reconciled(base, mine, saved).conflicts), ids, IdsOf(base + mine));
  }

  // ---------------------------------------------------------------- the merged roster

  lemma IdsInFront(first: Assignment, rest: Roster)
    ensures IdsOf([first] + rest) == [first.id] + IdsOf(rest)
  {
  }

  lemma {:induction false} PutIds(items: Roster, item: Assignment)
    ensures IdsOf(Put(items, item)) ==
      if Find(items, item.id).Some? then IdsOf(items) else IdsOf(items) + [item.id]
  {
    if items != [] && items[0].id != item.id {
      PutIds(items[1..], item);
      IdsInFront(items[0], items[1..]);
      IdsInFront(items[0], Put(items[1..], item));
      assert items == [items[0]] + items[1..];
    } else if items != [] {
      IdsInFront(items[0], items[1..]);
      IdsInFront(item, items[1..]);
      assert items == [items[0]] + items[1..];
    }
  }

  lemma SplitInFront(items: Roster, k: nat)
    requires 0 < k < |items|
    ensures [items[0]] + (items[1..][..k - 1] + items[1..][k..]) == items[..k] + items[k + 1..]
  {
  }

  lemma {:induction false} RemoveIds(items: Roster, id: string) returns (k: nat)
    ensures k <= |items|
    ensures if k < |items| then Remove(items, id) == items[..k] + items[k + 1..] else Remove(items, id) == items
  {
    k := 0;
    if items != [] && items[0].id != id {
      var n := RemoveIds(items[1..], id);
      k := n + 1;
      if k < |items| {
        SplitInFront(items, k);
      } else {
        assert items == [items[0]] + items[1..];
      }
    }
  }

  lemma RemoveKeepsOrder(items: Roster, id: string, ids: seq<string>)
    requires ComeAsIn(IdsOf(items), ids)
    ensures ComeAsIn(IdsOf(Remove(items, id)), ids)
  {
    var k := RemoveIds(items, id);
    var list, left := IdsOf(items), IdsOf(Remove(items, id));
    forall i | 0 <= i < |left| ensures left[i] == list[if k < |items| && i >= k then i + 1 else i] {
    }
  }

  lemma {:induction false} MergeAllInOrder(base: Roster, mine: Roster, start: Merged, ids: seq<string>)
    requires NoRepeats(ids) && UniqueIds(start.roster)
    ensures ComeAsIn(IdsOf(MergeAll(base, mine, start, ids).roster), IdsOf(start.roster) + ids)
  {
    if ids == [] {
      OwnOrder(start.roster);
      assert IdsOf(start.roster) + ids == IdsOf(start.roster);
    } else {
      var n := |ids| - 1;
      var acc, all := MergeAll(base, mine, start, ids[..n]), IdsOf(start.roster) + ids[..n];
      MergeAllInOrder(base, mine, start, ids[..n]);
      MergeAllAt(base, mine, start, ids[..n], ids[n]);
      InIdsOf(start.roster, ids[n]);
      assert ids == ids[..n] + [ids[n]];
      assert IdsOf(start.roster) + ids == all + [ids[n]];
      MergeStepInOrder(base, mine, acc, all, ids[n]);
    }
  }

  lemma MergeStepInOrder(base: Roster, mine: Roster, acc: Merged, all: seq<string>, id: string)
    requires ComeAsIn(IdsOf(acc.roster), all) && (Find(acc.roster, id).None? ==> id !in all)
    ensures ComeAsIn(IdsOf(MergeStep(base, mine, acc, id).roster), all + [id])
  {
    ComeAsInMore(IdsOf(acc.roster), all, [id]);
    RemoveKeepsOrder(acc.roster, id, all + [id]);
    FindHasId(mine, id);
    if Find(mine, id).Some? {
      PutIds(acc.roster, Find(mine, id).value);
      if Find(acc.roster, id).None? {
        NewComesLast(IdsOf(acc.roster), all, id);
      }
    }
  }

  lemma OwnOrder(items: Roster)
    requires UniqueIds(items)
    ensures NoRepeats(IdsOf(items)) && ComeAsIn(IdsOf(items), IdsOf(items))
  {
    UniqueMeansNoRepeats(items);
    forall i | 0 <= i < |items| ensures PlaceOf(IdsOf(items), IdsOf(items)[i]) == i {
      PlaceInOrdered(IdsOf(items), i);
    }
  }

  lemma {:induction false} UniqueMeansNoRepeats(items: Roster)
    requires UniqueIds(items)
    ensures NoRepeats(IdsOf(items))
  {
    if items != [] {
      UniqueMeansNoRepeats(items[1..]);
      InIdsOf(items[1..], items[0].id);
      IdsInFront(items[0], items[1..]);
      assert items == [items[0]] + items[1..];
      NoneInFront(items[0].id, IdsOf(items[1..]));
    }
  }

  lemma NoneInFront(id: string, ids: seq<string>)
    requires NoRepeats(ids) && id !in ids
    ensures NoRepeats([id] + ids)
  {
  }

  // The merged roster comes as what is saved does; what only the draft has comes after that, as in
  // the draft.
  lemma MergeKeepsOrder(base: Roster, mine: Roster, saved: Roster)
    requires UniqueIds(saved)
    ensures ComeAsIn(IdsOf(Reconciled(base, mine, saved).roster), IdsOf(saved) + IdsOf(base + mine))
  {
    var ids := IdsOf(base + mine);
    MapOfIsUnique(saved);
    DistinctFacts(ids);
    DistinctKeepsOrder(ids);
    MergeAllInOrder(base, mine, Merged(saved, []), Touched(base, mine));
    forall i | 0 <= i < |Reconciled(base, mine, saved).roster|
      ensures IdsOf(Reconciled(base, mine, saved).roster)[i] in IdsOf(saved) + ids
    {
    }
    PrefixedOrder(IdsOf(Reconciled(base, mine, saved).roster), IdsOf(saved), Distinct(ids), ids);
  }

  lemma PrefixedOrder(list: seq<string>, front: seq<string>, some: seq<string>, all: seq<string>)
    requires ComeAsIn(list, front + some) && ComeAsIn(some, all) && NoRepeats(some)
    ensures ComeAsIn(list, front + all)
  {
    forall i, j | 0 <= i < j < |list| ensures PlaceOf(front + all, list[i]) < PlaceOf(front + all, list[j]) {
      PlaceInFront(front, some, list[i]);
      PlaceInFront(front, some, list[j]);
      PlaceInFront(front, all, list[i]);
      PlaceInFront(front, all, list[j]);
      if list[i] !in front && list[j] !in front {
        var k, l := PlaceOf(some, list[i]), PlaceOf(some, list[j]);
        assert some[k] == list[i] && some[l] == list[j];
      }
    }
  }
}
