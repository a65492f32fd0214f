/**
  Approvals of a proposed change: which requirements an actor is offered and may decide
  (internal/server/authoring.go), and when the desktop may install (internal/server/desktop_authority.go).
 */
module Approvals {
  import opened Options
  import opened Text

  datatype Actor = Actor(kind: string, id: string)

  datatype Requirement = Requirement(policyId: string, role: string, count: int, separationGroup: string)

  datatype Evaluation = Evaluation(
    id: string, key: string, digest: string, allowed: bool, findings: string, requirements: seq<Requirement>,
      actor: Actor)

  datatype Decision = Decision(
    key: string, evaluationId: string, policyId: string, role: string, approved: bool, reason: string, actor: Actor)

  datatype Scope = Scope(kind: string, id: string)

  datatype ChangeSet = ChangeSet(
    scope: Scope, status: string, revision: int, digest: string, evaluations: seq<Evaluation>, decisions: seq<Decision>)

  // A requirement of an evaluation, as an authorizer names it.
  datatype Reference = Reference(evaluationId: string, policyId: string, role: string)

  const AWAITING := "awaiting_approval"

  // ---------------------------------------------------------------- what is offered

  predicate Requires(e: Evaluation, ref: Reference) {
    exists q :: q in e.requirements && q.policyId == ref.policyId && q.role == ref.role
  }

  predicate IsOn(d: Decision, ref: Reference) {
    d.evaluationId == ref.evaluationId && d.policyId == ref.policyId && d.role == ref.role
  }

  predicate Decided(decisions: seq<Decision>, actor: Actor, ref: Reference) {
    exists d :: d in decisions && IsOn(d, ref) && d.actor == actor
  }

  predicate Open(e: Evaluation, decisions: seq<Decision>, actor: Actor, ref: Reference) {
    ref.evaluationId == e.id && Requires(e, ref) && !Decided(decisions, actor, ref)
  }

  // The newest allowed evaluation that requires approvals.
  function Active(evaluations: seq<Evaluation>): Option<Evaluation> {
    if evaluations == [] then None
    else
      var newest := evaluations[|evaluations| - 1];
      if newest.allowed && newest.requirements != [] then Some(newest) else Active(evaluations[..|evaluations| - 1])
  }

  function PairKey(policyId: string, role: string): string {
    policyId + "\0" + role
  }

  function KeyOf(ref: Reference): string {
    ref.evaluationId + "\0" + PairKey(ref.policyId, ref.role)
  }

  function OpenAmong(authorized: seq<Reference>, e: Evaluation, decisions: seq<Decision>,
      actor: Actor): seq<Reference> {
    if authorized == [] then []
    else
      var front := OpenAmong(authorized[..|authorized| - 1], e, decisions, actor);
      var last := authorized[|authorized| - 1];
      if Open(e, decisions, actor, last) then front + [last] else front
  }

  function FirstOfEachKey(refs: seq<Reference>, key: Reference -> string): seq<Reference> {
    if refs == [] then []
    else
      var front, last := FirstOfEachKey(refs[..|refs| - 1], key), refs[|refs| - 1];
      if HasKey(front, key, key(last)) then front else front + [last]
  }

  predicate HasKey(refs: seq<Reference>, key: Reference -> string, k: string) {
    exists i :: 0 <= i < |refs| && key(refs[i]) == k
  }

  function Offered(c: Option<ChangeSet>, authorized: seq<Reference>, actor: Actor): seq<Reference> {
    if c.None? || c.value.status != AWAITING || Active(c.value.evaluations).None? then []
    else FirstOfEachKey(OpenAmong(authorized, Active(c.value.evaluations).value, c.value.decisions, actor), KeyOf)
  }

  method HasRequirement(e: Evaluation, ref: Reference) returns (active: bool)
    ensures active == Requires(e, ref)
  {
    var i := 0;
    while i < |e.requirements|
      invariant 0 <= i <= |e.requirements|
      invariant forall k :: 0 <= k < i ==>
        !(e.requirements[k].policyId == ref.policyId && e.requirements[k].role == ref.role)
    {
      if e.requirements[i].policyId == ref.policyId && e.requirements[i].role == ref.role {
        return true;
      }
      i := i + 1;
    }
    return false;
  }

  method HasDecided(decisions: seq<Decision>, actor: Actor, ref: Reference) returns (already: bool)
    ensures already == Decided(decisions, actor, ref)
  {
    var i := 0;
    while i < |decisions|
      invariant 0 <= i <= |decisions|
      invariant forall k :: 0 <= k < i ==> !(IsOn(decisions[k], ref) && decisions[k].actor == actor)
    {
      if IsOn(decisions[i], ref) && decisions[i].actor == actor {
        return true;
      }
      i := i + 1;
    }
    return false;
  }

  method ActiveRequirements(c: Option<ChangeSet>, authorized: seq<Reference>, actor: Actor)
    returns (result: seq<Reference>)
    ensures result == Offered(c, authorized, actor)
  {
    if c.None? || c.value.status != AWAITING {
      return [];
    }
    var evaluations := c.value.evaluations;
    var i := |evaluations|;
    assert evaluations[..i] == evaluations;
    while i > 0
      invariant 0 <= i <= |evaluations|
      invariant Active(evaluations) == Active(evaluations[..i])
    {
      i := i - 1;
      var e := evaluations[i];
      assert evaluations[..i + 1][..i] == evaluations[..i];
      if !e.allowed || |e.requirements| == 0 {
        continue;
      }
      result := [];
      var seen: set<string> := {};
      var j := 0;
      while j < |authorized|
        invariant 0 <= j <= |authorized|
        invariant result == FirstOfEachKey(OpenAmong(authorized[..j], e, c.value.decisions, actor), KeyOf)
        invariant forall k :: k in seen <==> HasKey(result, KeyOf, k)
      {
        assert authorized[..j + 1][..j] == authorized[..j];
        var ref := authorized[j];
        j := j + 1;
        if ref.evaluationId != e.id {
          continue;
        }
        var active := HasRequirement(e, ref);
        if !active {
          continue;
        }
        var already := HasDecided(c.value.decisions, actor, ref);
        var key := KeyOf(ref);
        ghost var open := OpenAmong(authorized[..j], e, c.value.decisions, actor);
        assert already || open[..|open| - 1] == OpenAmong(authorized[..j - 1], e, c.value.decisions, actor);
        if !already && key !in seen {
          HasKeyMore(result, ref, KeyOf);
          result := result + [ref];
          seen := seen + {key};
        }
      }
      assert authorized[..j] == authorized;
      return result;
    }
    return [];
  }

  // ---------------------------------------------------------------- what the offer contains

  lemma {:induction false} OpenAmongContents(authorized: seq<Reference>, e: Evaluation, decisions: seq<Decision>,
      actor: Actor)
    ensures forall r :: r in OpenAmong(authorized, e, decisions, actor) <==>
      r in authorized && Open(e, decisions, actor, r)
  {
    if authorized != [] {
      var n := |authorized| - 1;
      OpenAmongContents(authorized[..n], e, decisions, actor);
      assert authorized == authorized[..n] + [authorized[n]];
    }
  }

  lemma HasKeyMore(refs: seq<Reference>, r: Reference, key: Reference -> string)
    ensures forall k :: HasKey(refs + [r], key, k) <==> HasKey(refs, key, k) || k == key(r)
  {
    forall k ensures HasKey(refs + [r], key, k) <==> HasKey(refs, key, k) || k == key(r) {
      assert (refs + [r])[|refs|] == r;
      if HasKey(refs, key, k) {
        var i :| 0 <= i < |refs| && key(refs[i]) == k;
        assert key((refs + [r])[i]) == k;
      }
    }
  }

  lemma {:induction false} EachKeyIsPresent(refs: seq<Reference>, key: Reference -> string, i: int)
    requires 0 <= i < |refs|
    ensures HasKey(FirstOfEachKey(refs, key), key, key(refs[i]))
  {
    var front, last := FirstOfEachKey(refs[..|refs| - 1], key), refs[|refs| - 1];
    HasKeyMore(front, last, key);
    if i < |refs| - 1 {
      EachKeyIsPresent(refs[..|refs| - 1], key, i);
    }
  }

  lemma {:induction false} EachKeyIsPresentOnce(refs: seq<Reference>, key: Reference -> string, i: int, j: int)
    requires 0 <= i < j < |FirstOfEachKey(refs, key)|
    ensures key(FirstOfEachKey(refs, key)[i]) != key(FirstOfEachKey(refs, key)[j])
  {
    if j < |FirstOfEachKey(refs[..|refs| - 1], key)| {
      EachKeyIsPresentOnce(refs[..|refs| - 1], key, i, j);
    }
  }

  // No two of these have the same key without being the same.
  predicate KeysTellApart(refs: seq<Reference>, key: Reference -> string) {
    forall a, b :: 0 <= a < |refs| && 0 <= b < |refs| && key(refs[a]) == key(refs[b]) ==> refs[a] == refs[b]
  }

  // Keeping the first of each key keeps everything exactly when the keys tell everything apart.
  lemma FirstOfEachKeyIsExactIff(refs: seq<Reference>, key: Reference -> string)
    ensures (forall i :: 0 <= i < |refs| ==> refs[i] in FirstOfEachKey(refs, key)) <==> KeysTellApart(refs, key)
  {
    if forall i :: 0 <= i < |refs| ==> refs[i] in FirstOfEachKey(refs, key) {
      forall a, b | 0 <= a < |refs| && 0 <= b < |refs| && key(refs[a]) == key(refs[b]) ensures refs[a] == refs[b] {
        PresentOnceMeansSame(refs, key, refs[a], refs[b]);
      }
    }
    if KeysTellApart(refs, key) {
      forall i | 0 <= i < |refs| ensures refs[i] in FirstOfEachKey(refs, key) {
        ToldApartIsPresent(refs, key, i);
      }
    }
  }

  lemma PresentOnceMeansSame(refs: seq<Reference>, key: Reference -> string, a: Reference, b: Reference)
    requires a in FirstOfEachKey(refs, key) && b in FirstOfEachKey(refs, key) && key(a) == key(b)
    ensures a == b
  {
    var result := FirstOfEachKey(refs, key);
    var i :| 0 <= i < |result| && result[i] == a;
    var j :| 0 <= j < |result| && result[j] == b;
    if i < j { EachKeyIsPresentOnce(refs, key, i, j); }
    if j < i { EachKeyIsPresentOnce(refs, key, j, i); }
  }

  lemma ToldApartIsPresent(refs: seq<Reference>, key: Reference -> string, i: int)
    requires KeysTellApart(refs, key) && 0 <= i < |refs|
    ensures refs[i] in FirstOfEachKey(refs, key)
  {
    var result := FirstOfEachKey(refs, key);
    var at := FirstOfEachKeyInOrder(refs, key);
    EachKeyIsPresent(refs, key, i);
    var k :| 0 <= k < |result| && key(result[k]) == key(refs[i]);
    assert result[k] == refs[at[k]];
  }

  // The offer is the set of authorised, required and undecided references, each once, exactly
  // when the keys tell these apart.
  lemma OfferIsExactIff(c: ChangeSet, authorized: seq<Reference>, actor: Actor)
    requires c.status == AWAITING && Active(c.evaluations).Some?
    ensures var e, offered := Active(c.evaluations).value, Offered(Some(c), authorized, actor);
      (forall r :: r in authorized && Open(e, c.decisions, actor, r) ==> r in offered) <==>
      KeysTellApart(OpenAmong(authorized, e, c.decisions, actor), KeyOf)
    ensures var e, offered := Active(c.evaluations).value, Offered(Some(c), authorized, actor);
      (forall r :: r in offered ==> r in authorized && Open(e, c.decisions, actor, r)) &&
      (forall i, j :: 0 <= i < j < |offered| ==> offered[i] != offered[j])
  {
    var open := OpenAmong(authorized, Active(c.evaluations).value, c.decisions, actor);
    OpenAmongContents(authorized, Active(c.evaluations).value, c.decisions, actor);
    FirstOfEachKeyIsExactIff(open, KeyOf);
    var at := FirstOfEachKeyInOrder(open, KeyOf);
    var offered := Offered(Some(c), authorized, actor);
    forall i, j | 0 <= i < j < |offered| ensures offered[i] != offered[j] {
      EachKeyIsPresentOnce(open, KeyOf, i, j);
    }
    forall r | r in offered ensures r in open {
      var i :| 0 <= i < |offered| && offered[i] == r;
      assert open[at[i]] == r;
    }
  }

  predicate Ascending(at: seq<nat>, n: nat) {
    (forall i :: 0 <= i < |at| ==> at[i] < n) && (forall i, j :: 0 <= i < j < |at| ==> at[i] < at[j])
  }

  // `some` are those of `all` at these places, in their order.
  predicate IsAt(some: seq<Reference>, all: seq<Reference>, at: seq<nat>) {
    |at| == |some| && Ascending(at, |all|) && forall i :: 0 <= i < |at| ==> some[i] == all[at[i]]
  }

  lemma IsAtMore(some: seq<Reference>, all: seq<Reference>, at: seq<nat>, r: Reference)
    requires IsAt(some, all, at)
    ensures IsAt(some, all + [r], at) && IsAt(some + [r], all + [r], at + [|all|])
  {
  }

  lemma {:induction false} OpenAmongInOrder(authorized: seq<Reference>, e: Evaluation, decisions: seq<Decision>,
      actor: Actor)
    returns (at: seq<nat>)
    ensures IsAt(OpenAmong(authorized, e, decisions, actor), authorized, at)
  {
    at := [];
    if authorized != [] {
      var n := |authorized| - 1;
      at := OpenAmongInOrder(authorized[..n], e, decisions, actor);
      IsAtMore(OpenAmong(authorized[..n], e, decisions, actor), authorized[..n], at, authorized[n]);
      assert authorized == authorized[..n] + [authorized[n]];
      if Open(e, decisions, actor, authorized[n]) {
        at := at + [n];
      }
    }
  }

  lemma {:induction false} FirstOfEachKeyInOrder(refs: seq<Reference>, key: Reference -> string) returns (at: seq<nat>)
    ensures IsAt(FirstOfEachKey(refs, key), refs, at)
  {
    at := [];
    if refs != [] {
      var n := |refs| - 1;
      var front := FirstOfEachKey(refs[..n], key);
      at := FirstOfEachKeyInOrder(refs[..n], key);
      IsAtMore(front, refs[..n], at, refs[n]);
      assert refs == refs[..n] + [refs[n]];
      if !HasKey(front, key, key(refs[n])) {
        at := at + [n];
      }
    }
  }

  // The offer keeps the order in which the authorizer names the references.
  lemma OfferIsInOrder(c: ChangeSet, authorized: seq<Reference>, actor: Actor) returns (at: seq<nat>)
    ensures Ascending(at, |authorized|) && |at| == |Offered(Some(c), authorized, actor)|
    ensures forall i :: 0 <= i < |at| ==> Offered(Some(c), authorized, actor)[i] == authorized[at[i]]
  {
    if c.status != AWAITING || Active(c.evaluations).None? {
      return [];
    }
    var open := OpenAmongInOrder(authorized, Active(c.evaluations).value, c.decisions, actor);
    var first := FirstOfEachKeyInOrder(OpenAmong(authorized, Active(c.evaluations).value, c.decisions, actor), KeyOf);
    at := seq(|first|, i requires 0 <= i < |first| => open[first[i]]);
  }

  // The rule evaluations are submitted under (pkg/authoring/changeset.go): no two requirements
  // with one joined policy and role.
  predicate UniqueRequirements(requirements: seq<Requirement>) {
    forall i, j :: 0 <= i < j < |requirements| ==>
      PairKey(requirements[i].policyId, requirements[i].role) != PairKey(requirements[j].policyId, requirements[j].role)
  }

  lemma UniqueRequirementsTellApart(authorized: seq<Reference>, e: Evaluation, decisions: seq<Decision>, actor: Actor)
    requires UniqueRequirements(e.requirements)
    ensures KeysTellApart(OpenAmong(authorized, e, decisions, actor), KeyOf)
  {
    var open := OpenAmong(authorized, e, decisions, actor);
    OpenAmongContents(authorized, e, decisions, actor);
    forall a, b | 0 <= a < |open| && 0 <= b < |open| && KeyOf(open[a]) == KeyOf(open[b]) ensures open[a] == open[b] {
      assert open[a] in open && open[b] in open;
      RequiredKeysTellApart(e, open[a], open[b]);
    }
  }

  lemma RequiredKeysTellApart(e: Evaluation, a: Reference, b: Reference)
    requires UniqueRequirements(e.requirements) && Requires(e, a) && Requires(e, b)
    requires a.evaluationId == e.id == b.evaluationId && KeyOf(a) == KeyOf(b)
    ensures a == b
  {
    var n := |e.id| + 1;
    assert KeyOf(a)[n..] == PairKey(a.policyId, a.role) && KeyOf(b)[n..] == PairKey(b.policyId, b.role);
    var i :| 0 <= i < |e.requirements| && e.requirements[i].policyId == a.policyId && e.requirements[i].role == a.role;
    var j :| 0 <= j < |e.requirements| && e.requirements[j].policyId == b.policyId && e.requirements[j].role == b.role;
  }

  // Without that rule a requirement can be withheld: its key is another one's. Here the offer has the
  // first of two required, authorised and undecided references; the rule excludes such requirements.
  lemma KeysCanCollide(c: ChangeSet, actor: Actor)
    requires c.status == AWAITING && c.decisions == []
    requires c.evaluations == [
      Evaluation("e", "k", "d", true, "", [Requirement("p\0q", "r", 1, ""), Requirement("p", "q\0r", 1, "")],
        LOCAL_POLICY)]
    ensures var a, b := Reference("e", "p\0q", "r"), Reference("e", "p", "q\0r");
      Open(c.evaluations[0], [], actor, a) && Open(c.evaluations[0], [], actor, b) &&
      Offered(Some(c), [a, b], actor) == [a]
    ensures !UniqueRequirements(c.evaluations[0].requirements)
  {
    var a, b := Reference("e", "p\0q", "r"), Reference("e", "p", "q\0r");
    var e := c.evaluations[0];
    assert e.requirements[0] in e.requirements && e.requirements[1] in e.requirements;
    assert KeyOf(a) == KeyOf(b) && PairKey("p\0q", "r") == PairKey("p", "q\0r");
    TwoOpen(a, b, e, [], actor);
    TwoOfOneKey(a, b, KeyOf);
    assert Active(c.evaluations) == Some(e);
  }

  lemma TwoOpen(a: Reference, b: Reference, e: Evaluation, decisions: seq<Decision>, actor: Actor)
    requires Open(e, decisions, actor, a) && Open(e, decisions, actor, b)
    ensures OpenAmong([a, b], e, decisions, actor) == [a, b]
  {
    assert [a, b][..1] == [a] && [a][..0] == [];
    assert OpenAmong([a], e, decisions, actor) == [a];
  }

  lemma TwoOfOneKey(a: Reference, b: Reference, key: Reference -> string)
    requires key(a) == key(b)
    ensures FirstOfEachKey([a, b], key) == [a]
  {
    assert [a, b][..1] == [a] && [a][..0] == [];
    assert FirstOfEachKey([a], key) == [a];
    assert key([a][0]) == key(b);
  }

  // ---------------------------------------------------------------- deciding

  datatype Request = Request(
    expectedRevision: int, evaluationId: string, policyId: string, role: string, approved: bool, reason: string,
      key: string)

  function ReferenceOf(q: Request): Reference {
    Reference(q.evaluationId, q.policyId, q.role)
  }

  // This request has been carried out before.
  predicate IsRepeat(decisions: seq<Decision>, actor: Actor, q: Request) {
    exists d :: d in decisions && d.key == q.key && d.actor == actor && IsOn(d, ReferenceOf(q))
  }

  predicate MayDecide(c: ChangeSet, authorized: seq<Reference>, actor: Actor, q: Request) {
    ReferenceOf(q) in Offered(Some(c), authorized, actor) ||
    (ReferenceOf(q) in authorized && IsRepeat(c.decisions, actor, q))
  }

  method CheckEligible(c: ChangeSet, authorized: seq<Reference>, actor: Actor, q: Request) returns (eligible: bool)
    ensures eligible == MayDecide(c, authorized, actor, q)
  {
    eligible := false;
    var offered := ActiveRequirements(Some(c), authorized, actor);
    var i := 0;
    while i < |offered|
      invariant 0 <= i <= |offered|
      invariant ReferenceOf(q) !in offered[..i]
    {
      if offered[i] == ReferenceOf(q) {
        return true;
      }
      i := i + 1;
    }
    assert offered[..i] == offered;
    var j := 0;
    while j < |authorized|
      invariant 0 <= j <= |authorized|
      invariant eligible == (ReferenceOf(q) in authorized[..j] && IsRepeat(c.decisions, actor, q))
    {
      assert authorized[..j + 1] == authorized[..j] + [authorized[j]];
      var reference := authorized[j];
      j := j + 1;
      if reference != ReferenceOf(q) {
        continue;
      }
      var k := 0;
      while k < |c.decisions|
        invariant 0 <= k <= |c.decisions|
        invariant eligible ==> IsRepeat(c.decisions, actor, q)
        invariant forall d :: d in c.decisions[..k] && d.key == q.key && d.actor == actor && IsOn(d, reference) ==>
          eligible
      {
        var decision := c.decisions[k];
        assert c.decisions[..k + 1] == c.decisions[..k] + [decision];
        if decision.key == q.key && decision.actor == actor && IsOn(decision, reference) {
          assert decision in c.decisions;
          eligible := true;
        }
        k := k + 1;
      }
      assert c.decisions[..k] == c.decisions;
    }
    assert authorized[..j] == authorized;
  }

  // ---------------------------------------------------------------- the desktop's authority

  const INSTALL_POLICY := "local-desktop-install"
  const OWNER_ROLE := "workspace-owner"
  const OWNER := Actor("user", "local-operator")
  const LOCAL_POLICY := Actor("policy_evaluator", "local-desktop-policy")

  datatype Operation = Retry | Refine | Patch | Activate | Apply | Evaluate | Approve | OtherOperation

  datatype Finding = Finding(policyId: string, code: string, message: string)

  datatype Policy = Policy(allowed: bool, findings: seq<Finding>, requirements: seq<Requirement>)

  const OWNER_REVIEW_REQUIRED := Finding(INSTALL_POLICY, "owner_review_required",
    "The workspace owner must approve this exact proposal before installation. Kernel readiness checks still apply.")

  const OWNER_REVIEW := Policy(true, [OWNER_REVIEW_REQUIRED], [Requirement(INSTALL_POLICY, OWNER_ROLE, 1, "")])

  datatype Authorization = Authorization(actor: Actor, eligible: seq<Reference>, policy: Option<Policy>)

  predicate IsCurrentLocal(e: Evaluation, digest: string) {
    e.digest == digest && e.allowed && e.actor == LOCAL_POLICY
  }

  predicate IsOwnerRequirement(q: Requirement) {
    q.policyId == INSTALL_POLICY && q.role == OWNER_ROLE
  }

  // The owner approved what the local policy last said of exactly this candidate.
  predicate OwnerReviewed(c: ChangeSet) {
    c.evaluations != [] &&
    (var e := c.evaluations[|c.evaluations| - 1];
     IsCurrentLocal(e, c.digest) && (exists q :: q in e.requirements && IsOwnerRequirement(q) && q.count == 1) &&
     (exists d :: d in c.decisions && IsOn(d, Reference(e.id, INSTALL_POLICY, OWNER_ROLE)) && d.actor == OWNER &&
       d.approved))
  }

  method DesktopOwnerReviewed(c: ChangeSet, owner: Actor) returns (reviewed: bool)
    requires owner == OWNER
    ensures reviewed == OwnerReviewed(c)
  {
    if |c.evaluations| == 0 {
      return false;
    }
    var e := c.evaluations[|c.evaluations| - 1];
    if e.digest != c.digest || !e.allowed || e.actor.kind != "policy_evaluator" ||
      e.actor.id != "local-desktop-policy" {
      return false;
    }
    var required := false;
    var i := 0;
    while i < |e.requirements|
      invariant 0 <= i <= |e.requirements|
      invariant required <==>
        exists k :: 0 <= k < i && IsOwnerRequirement(e.requirements[k]) && e.requirements[k].count == 1
    {
      if e.requirements[i].policyId == INSTALL_POLICY && e.requirements[i].role == OWNER_ROLE &&
        e.requirements[i].count == 1 {
        required := true;
      }
      i := i + 1;
    }
    if !required {
      return false;
    }
    assert exists q :: q in e.requirements && IsOwnerRequirement(q) && q.count == 1;
    i := 0;
    while i < |c.decisions|
      invariant 0 <= i <= |c.decisions|
      invariant forall d :: d in c.decisions[..i] ==>
        !(IsOn(d, Reference(e.id, INSTALL_POLICY, OWNER_ROLE)) && d.actor == OWNER && d.approved)
    {
      var d := c.decisions[i];
      assert c.decisions[..i + 1] == c.decisions[..i] + [d];
      if d.evaluationId == e.id && d.policyId == INSTALL_POLICY && d.role == OWNER_ROLE && d.actor == owner &&
        d.approved {
        assert d in c.decisions;
        return true;
      }
      i := i + 1;
    }
    assert c.decisions[..i] == c.decisions;
    return false;
  }

  function OwnerReferences(requirements: seq<Requirement>, ref: Reference): seq<Reference> {
    if requirements == [] then []
    else
      OwnerReferences(requirements[..|requirements| - 1], ref) +
      (if IsOwnerRequirement(requirements[|requirements| - 1]) then [ref] else [])
  }

  // What the desktop lets the owner approve: the owner requirements of every evaluation of the
  // current candidate, in order, as often as they are listed.
  function DesktopReferences(evaluations: seq<Evaluation>, digest: string): seq<Reference> {
    if evaluations == [] then []
    else
      var e := evaluations[|evaluations| - 1];
      DesktopReferences(evaluations[..|evaluations| - 1], digest) +
      (if IsCurrentLocal(e, digest) then OwnerReferences(e.requirements, Reference(e.id, INSTALL_POLICY, OWNER_ROLE))
        else [])
  }

  predicate OwnerAmong(requirements: seq<Requirement>) {
    exists q :: q in requirements && IsOwnerRequirement(q)
  }

  predicate DesktopLists(evaluations: seq<Evaluation>, digest: string, ref: Reference) {
    ref.policyId == INSTALL_POLICY && ref.role == OWNER_ROLE &&
    exists e :: e in evaluations && IsCurrentLocal(e, digest) && e.id == ref.evaluationId && OwnerAmong(e.requirements)
  }

  lemma {:induction false} OwnerReferencesAre(requirements: seq<Requirement>, ref: Reference)
    ensures forall r :: r in OwnerReferences(requirements, ref) <==> r == ref && OwnerAmong(requirements)
  {
    if requirements != [] {
      var n := |requirements| - 1;
      OwnerReferencesAre(requirements[..n], ref);
      assert requirements == requirements[..n] + [requirements[n]];
      assert OwnerAmong(requirements) <==> OwnerAmong(requirements[..n]) || IsOwnerRequirement(requirements[n]);
    }
  }

  lemma {:induction false} DesktopReferencesAre(evaluations: seq<Evaluation>, digest: string, r: Reference)
    ensures r in DesktopReferences(evaluations, digest) <==> DesktopLists(evaluations, digest, r)
  {
    if evaluations != [] {
      var n := |evaluations| - 1;
      DesktopReferencesAre(evaluations[..n], digest, r);
      OwnerReferencesAre(evaluations[n].requirements, Reference(evaluations[n].id, INSTALL_POLICY, OWNER_ROLE));
      assert evaluations == evaluations[..n] + [evaluations[n]];
    }
  }

  // `workspace` is the workspace the desktop is configured for; None is an error.
  method AuthorizeLifecycle(workspace: Scope, operation: Operation, c: Option<ChangeSet>)
    returns (result: Option<Authorization>)
    ensures result.Some? <==>
      workspace.kind == "local" && !GoBlank(workspace.id) && c.Some? && c.value.scope == workspace &&
      !operation.OtherOperation? && (operation.Apply? ==> OwnerReviewed(c.value))
    ensures result.Some? ==> result.value.actor == if operation.Evaluate? then LOCAL_POLICY else OWNER
    ensures result.Some? ==> result.value.policy == if operation.Evaluate? then Some(OWNER_REVIEW) else None
    ensures result.Some? && operation.Approve? ==>
      result.value.eligible == DesktopReferences(c.value.evaluations, c.value.digest)
    ensures result.Some? && !operation.Approve? ==> result.value.eligible == []
  {
    if workspace.kind != "local" || GoBlank(workspace.id) || c.None? || c.value.scope != workspace {
      return None;
    }
    match operation {
      case Retry | Refine | Patch | Activate =>
        return Some(Authorization(OWNER, [], None));
      case Apply =>
        var reviewed := DesktopOwnerReviewed(c.value, OWNER);
        return if reviewed then Some(Authorization(OWNER, [], None)) else None;
      case Evaluate =>
        return Some(Authorization(LOCAL_POLICY, [], Some(OWNER_REVIEW)));
      case Approve =>
        var eligible := EligibleRequirements(c.value);
        return Some(Authorization(OWNER, eligible, None));
      case OtherOperation =>
        return None;
    }
  }

  method EligibleRequirements(c: ChangeSet) returns (eligible: seq<Reference>)
    ensures eligible == DesktopReferences(c.evaluations, c.digest)
    ensures forall r :: r in eligible <==> DesktopLists(c.evaluations, c.digest, r)
  {
    eligible := [];
    var i := 0;
    while i < |c.evaluations|
      invariant 0 <= i <= |c.evaluations|
      invariant eligible == DesktopReferences(c.evaluations[..i], c.digest)
    {
      var e := c.evaluations[i];
      ghost var before := eligible;
      assert c.evaluations[..i + 1][..i] == c.evaluations[..i];
      i := i + 1;
      if e.digest != c.digest || !e.allowed || e.actor.id != "local-desktop-policy" ||
        e.actor.kind != "policy_evaluator" {
        continue;
      }
      var k := 0;
      while k < |e.requirements|
        invariant 0 <= k <= |e.requirements|
        invariant eligible == before + OwnerReferences(e.requirements[..k], Reference(e.id, INSTALL_POLICY, OWNER_ROLE))
      {
        assert e.requirements[..k + 1][..k] == e.requirements[..k];
        if e.requirements[k].policyId == INSTALL_POLICY && e.requirements[k].role == OWNER_ROLE {
          eligible := eligible + [Reference(e.id, INSTALL_POLICY, OWNER_ROLE)];
        }
        k := k + 1;
      }
      assert e.requirements[..k] == e.requirements;
    }
    assert c.evaluations[..i] == c.evaluations;
    forall r ensures r in eligible <==> DesktopLists(c.evaluations, c.digest, r) {
      DesktopReferencesAre(c.evaluations, c.digest, r);
    }
  }
}
