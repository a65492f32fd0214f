/**
  Who may speak in a team's channel (internal/daemon/conversation_participants.go): all members of
  the roster that are active in a speaking role, in the order of their ids, or nobody at all.
 */
module Participants {
  import opened Options
  import opened Text

  datatype Scope = Scope(kind: string, id: string)

  // What the catalog answers: an error, nothing, or a record.
  datatype Lookup<T> = Failed | Missing | Found(value: T)

  datatype Role = Role(id: string, participation: string, requiredDefinitions: seq<string>, requiredSkills: seq<string>)

  datatype TeamDefinition = TeamDefinition(id: string, version: string, roles: seq<Role>, wellFormed: bool)

  datatype Assignment = Assignment(id: string, agentId: string, roleId: string)

  // `wellFormed` stands for what validation demands beyond the definition, the ids, agents and roles.
  datatype Deployment = Deployment(
    id: string, scope: Scope, status: string, activating: bool, definitionId: string, activeVersion: string,
    roster: seq<Assignment>, wellFormed: bool)

  datatype Agent = Agent(
    id: string, scope: Scope, wellFormed: bool, rollout: string, activating: bool, ownModelProvider: bool,
    definitionId: string, activeVersion: string)

  datatype AgentDefinition = AgentDefinition(id: string, version: string, wellFormed: bool, skills: seq<string>)

  // `portable` says which ids are portable opaque identifiers.
  datatype Catalog = Catalog(
    team: string -> Lookup<Deployment>, teamDefinition: (string, string) -> Lookup<TeamDefinition>,
    agent: string -> Lookup<Agent>, agentDefinition: (string, string) -> Lookup<AgentDefinition>,
      portable: string -> bool)

  datatype Channel = Channel(id: string, scope: Scope, ownerType: string, ownerId: string, status: string)

  datatype Message = Message(scope: Scope, conversationId: string)

  datatype Error =
    | NoTeamChannel | ForeignTrigger | TeamNotLoaded | TeamNotActive | DefinitionNotLoaded | InvalidTeam
    | AgentNotLoaded
    | AgentUnavailable | OwnModelProvider | InvalidDefinition | RoleUnmet | SkillUnmet | InvalidBinding | TooMany

  datatype Member = Member(agentId: string, role: Role, definition: AgentDefinition)

  datatype Resolution = List(members: seq<Member>) | NoParticipants | Refused(error: Error)

  const NO_ROLE := Role("", "", [], [])

  // ---------------------------------------------------------------- one assignment

  function RoleOf(roles: seq<Role>, id: string): Role {
    if roles == [] then NO_ROLE
    else if roles[|roles| - 1].id == id then roles[|roles| - 1]
    else RoleOf(roles[..|roles| - 1], id)
  }

  predicate Speaking(role: Role) {
    role.participation != "observe_only" && role.participation != "disabled"
  }

  predicate BindingIsValid(c: Catalog, agentId: string, roleId: string) {
    c.portable(agentId) && 1 <= |GoTrim(roleId)| <= 80
  }

  datatype Verdict = Skip | Stop(error: Error) | Speaks(member: Member)

  function Judge(c: Catalog, scope: Scope, roles: seq<Role>, a: Assignment): Verdict {
    var role, found := RoleOf(roles, a.roleId), c.agent(a.agentId);
    if !Speaking(role) then Skip
    else if found.Failed? then Stop(AgentNotLoaded)
    else if found.Missing? || found.value.id != a.agentId || found.value.scope != scope || !found.value.wellFormed then
      Stop(AgentUnavailable)
    else if found.value.rollout != "active" || found.value.activating then Skip
    else if found.value.ownModelProvider then Stop(OwnModelProvider)
    else
      var definition := c.agentDefinition(found.value.definitionId, found.value.activeVersion);
      if definition.Failed? then Stop(DefinitionNotLoaded)
      else if definition.Missing? || definition.value.id != found.value.definitionId ||
              definition.value.version != found.value.activeVersion || !definition.value.wellFormed then
                Stop(InvalidDefinition)
      else if role.requiredDefinitions != [] && definition.value.id !in role.requiredDefinitions then Stop(RoleUnmet)
      else if exists s :: s in role.requiredSkills && s !in definition.value.skills then Stop(SkillUnmet)
      else if !BindingIsValid(c, found.value.id, role.id) then Stop(InvalidBinding)
      else Speaks(Member(found.value.id, role, definition.value))
  }

  // ---------------------------------------------------------------- the roster

  // The members of the assignments so far, unless one of them stops the resolution.
  function Gather(c: Catalog, scope: Scope, roles: seq<Role>, roster: seq<Assignment>, maximum: int): Resolution {
    if roster == [] then List([])
    else
      var before := Gather(c, scope, roles, roster[..|roster| - 1], maximum);
      if !before.List? then before
      else
        match Judge(c, scope, roles, roster[|roster| - 1])
        case Skip => before
        case Stop(error) => Refused(error)
        case Speaks(m) => if |before.members| + 1 > maximum then Refused(TooMany) else List(before.members + [m])
  }

  function Insert(m: Member, sorted: seq<Member>): seq<Member> {
    if sorted == [] || Before(m.agentId, sorted[0].agentId) then [m] + sorted else [sorted[0]] + Insert(m, sorted[1..])
  }

  function SortedById(members: seq<Member>): seq<Member> {
    if members == [] then [] else Insert(members[|members| - 1], SortedById(members[..|members| - 1]))
  }

  function Resolved(c: Catalog, scope: Scope, roles: seq<Role>, roster: seq<Assignment>, maximum: int): Resolution {
    var gathered := Gather(c, scope, roles, roster, maximum);
    if !gathered.List? then gathered else if gathered.members == [] then NoParticipants
    else List(SortedById(gathered.members))
  }

  predicate UniqueAgents(roster: seq<Assignment>) {
    forall i, j :: 0 <= i < j < |roster| ==> roster[i].agentId != roster[j].agentId
  }

  predicate UniqueIds(roster: seq<Assignment>) {
    forall i, j :: 0 <= i < j < |roster| ==> roster[i].id != roster[j].id
  }

  // The validation of a deployment against its definition (pkg/team/deployment.go).
  predicate ValidDeployment(d: Deployment, definition: TeamDefinition) {
    d.wellFormed && d.definitionId == definition.id && d.activeVersion == definition.version &&
    (forall a :: a in d.roster ==>
      !GoBlank(a.id) && !GoBlank(a.agentId) && RoleOf(definition.roles, a.roleId).id != "") &&
    UniqueIds(d.roster) && UniqueAgents(d.roster)
  }

  predicate TeamIsActive(d: Deployment, id: string, scope: Scope) {
    d.id == id && d.scope == scope && d.status == "active" && !d.activating
  }

  function Outcome(c: Catalog, scope: Scope, maximum: int, channel: Option<Channel>,
      trigger: Option<Message>): Resolution {
    if channel.None? || channel.value.scope != scope || channel.value.ownerType != "team" ||
      channel.value.ownerId == "" ||
       channel.value.status != "active" then Refused(NoTeamChannel)
    else if trigger.Some? && (trigger.value.scope != scope || trigger.value.conversationId != channel.value.id) then
      Refused(ForeignTrigger)
    else
      var found := c.team(channel.value.ownerId);
      if found.Failed? then Refused(TeamNotLoaded)
      else if found.Missing? || !TeamIsActive(found.value, channel.value.ownerId, scope) then Refused(TeamNotActive)
      else
        var definition := c.teamDefinition(found.value.definitionId, found.value.activeVersion);
        if definition.Failed? then Refused(DefinitionNotLoaded)
        else if definition.Missing? || !definition.value.wellFormed ||
          !ValidDeployment(found.value, definition.value) then
          Refused(InvalidTeam)
        else Resolved(c, scope, definition.value.roles, found.value.roster, maximum)
  }

  // ---------------------------------------------------------------- the method

  method RolesById(roles: seq<Role>) returns (byId: map<string, Role>)
    ensures forall id :: (if id in byId then byId[id] else NO_ROLE) == RoleOf(roles, id)
  {
    byId := map[];
    var i := 0;
    while i < |roles|
      invariant 0 <= i <= |roles|
      invariant forall id :: (if id in byId then byId[id] else NO_ROLE) == RoleOf(roles[..i], id)
    {
      assert roles[..i + 1][..i] == roles[..i];
      byId := byId[roles[i].id := roles[i]];
      i := i + 1;
    }
    assert roles[..i] == roles;
  }

  method HasSkills(required: seq<string>, skills: seq<string>) returns (ok: bool)
    ensures ok <==> forall s :: s in required ==> s in skills
  {
    var i := 0;
    while i < |required|
      invariant 0 <= i <= |required|
      invariant forall k :: 0 <= k < i ==> required[k] in skills
    {
      if required[i] !in skills {
        return false;
      }
      i := i + 1;
    }
    return true;
  }

  method GatherMembers(c: Catalog, scope: Scope, definition: TeamDefinition, roster: seq<Assignment>, maximum: int)
    returns (r: Resolution)
    ensures r == Gather(c, scope, definition.roles, roster, maximum)
  {
    var roles := RolesById(definition.roles);
    var members: seq<Member> := [];
    var i := 0;
    while i < |roster|
      invariant 0 <= i <= |roster|
      invariant Gather(c, scope, definition.roles, roster[..i], maximum) == List(members)
    {
      var a := roster[i];
      i := i + 1;
      assert roster[..i][..i - 1] == roster[..i - 1];
      GatherIsSettled(c, scope, definition.roles, roster, maximum, i);
      var role := if a.roleId in roles then roles[a.roleId] else NO_ROLE;
      assert role == RoleOf(definition.roles, a.roleId);
      if role.participation == "observe_only" || role.participation == "disabled" {
        continue;
      }
      var found := c.agent(a.agentId);
      if found.Failed? {
        return Refused(AgentNotLoaded);
      }
      if found.Missing? || found.value.id != a.agentId || found.value.scope != scope || !found.value.wellFormed {
        return Refused(AgentUnavailable);
      }
      var member := found.value;
      if member.rollout != "active" || member.activating {
        continue;
      }
      if member.ownModelProvider {
        return Refused(OwnModelProvider);
      }
      var loaded := c.agentDefinition(member.definitionId, member.activeVersion);
      if loaded.Failed? {
        return Refused(DefinitionNotLoaded);
      }
      if loaded.Missing? || loaded.value.id != member.definitionId || loaded.value.version != member.activeVersion ||
         !loaded.value.wellFormed {
        return Refused(InvalidDefinition);
      }
      if |role.requiredDefinitions| > 0 && loaded.value.id !in role.requiredDefinitions {
        return Refused(RoleUnmet);
      }
      var skilled := HasSkills(role.requiredSkills, loaded.value.skills);
      if !skilled {
        return Refused(SkillUnmet);
      }
      if !BindingIsValid(c, member.id, role.id) {
        return Refused(InvalidBinding);
      }
      members := members + [Member(member.id, role, loaded.value)];
      if |members| > maximum {
        return Refused(TooMany);
      }
    }
    assert roster[..i] == roster;
    return List(members);
  }

  // Once an assignment stops the resolution, the rest of the roster changes nothing.
  lemma {:induction false} GatherIsSettled(c: Catalog, scope: Scope, roles: seq<Role>, roster: seq<Assignment>,
      maximum: int, i: int)
    requires 0 <= i <= |roster|
    ensures !Gather(c, scope, roles, roster[..i], maximum).List? ==>
      Gather(c, scope, roles, roster, maximum) == Gather(c, scope, roles, roster[..i], maximum)
    decreases |roster|
  {
    if i < |roster| {
      GatherIsSettled(c, scope, roles, roster[..|roster| - 1], maximum, i);
      assert roster[..|roster| - 1][..i] == roster[..i];
    } else {
      assert roster[..i] == roster;
    }
  }

  method Resolve(c: Catalog, scope: Scope, maximum: int, channel: Option<Channel>, trigger: Option<Message>)
    returns (r: Resolution)
    ensures r == Outcome(c, scope, maximum, channel, trigger)
  {
    if channel.None? || channel.value.scope != scope || channel.value.ownerType != "team" ||
      channel.value.ownerId == "" ||
       channel.value.status != "active" {
      return Refused(NoTeamChannel);
    }
    if trigger.Some? && (trigger.value.scope != scope || trigger.value.conversationId != channel.value.id) {
      return Refused(ForeignTrigger);
    }
    var deployment := c.team(channel.value.ownerId);
    if deployment.Failed? {
      return Refused(TeamNotLoaded);
    }
    if deployment.Missing? || !TeamIsActive(deployment.value, channel.value.ownerId, scope) {
      return Refused(TeamNotActive);
    }
    var definition := c.teamDefinition(deployment.value.definitionId, deployment.value.activeVersion);
    if definition.Failed? {
      return Refused(DefinitionNotLoaded);
    }
    if definition.Missing? || !definition.value.wellFormed || !ValidDeployment(deployment.value, definition.value) {
      return Refused(InvalidTeam);
    }
    r := GatherMembers(c, scope, definition.value, deployment.value.roster, maximum);
    if r.List? {
      r := if |r.members| == 0 then NoParticipants else List(SortedById(r.members));
    }
  }

  datatype Binding = Binding(participantId: string, semanticRoles: seq<string>)

  method ResolveConversationParticipants(c: Catalog, scope: Scope, maximum: int, channel: Option<Channel>,
      trigger: Option<Message>)
    returns (bindings: seq<Binding>, r: Resolution)
    ensures r == Outcome(c, scope, maximum, channel, trigger) && |bindings| == if r.List? then |r.members| else 0
    ensures forall i :: 0 <= i < |bindings| ==> bindings[i] == Binding(r.members[i].agentId, [r.members[i].role.id])
  {
    bindings := [];
    r := Resolve(c, scope, maximum, channel, trigger);
    if !r.List? {
      return;
    }
    var i := 0;
    while i < |r.members|
      invariant 0 <= i == |bindings| <= |r.members|
      invariant forall k :: 0 <= k < i ==> bindings[k] == Binding(r.members[k].agentId, [r.members[k].role.id])
    {
      bindings := bindings + [Binding(r.members[i].agentId, [r.members[i].role.id])];
      i := i + 1;
    }
  }

  // ---------------------------------------------------------------- sorting

  predicate Ascending(members: seq<Member>) {
    forall i, j :: 0 <= i < j < |members| ==> Before(members[i].agentId, members[j].agentId)
  }

  predicate DistinctAgents(members: seq<Member>) {
    forall i, j :: 0 <= i < j < |members| ==> members[i].agentId != members[j].agentId
  }

  lemma {:induction false} InsertKeepsOrder(m: Member, sorted: seq<Member>)
    requires Ascending(sorted) && forall x :: x in sorted ==> x.agentId != m.agentId
    ensures Ascending(Insert(m, sorted)) && |Insert(m, sorted)| == |sorted| + 1
    ensures forall x :: x in Insert(m, sorted) <==> x == m || x in sorted
  {
    if sorted != [] {
      BeforeIsTotal(m.agentId, sorted[0].agentId);
      assert sorted == [sorted[0]] + sorted[1..];
      if Before(m.agentId, sorted[0].agentId) {
        forall j | 0 < j < |sorted| ensures Before(m.agentId, sorted[j].agentId) {
          BeforeIsTransitive(m.agentId, sorted[0].agentId, sorted[j].agentId);
        }
      } else {
        InsertKeepsOrder(m, sorted[1..]);
        var rest := Insert(m, sorted[1..]);
        forall j | 0 <= j < |rest| ensures Before(sorted[0].agentId, rest[j].agentId) {
          assert rest[j] in rest;
        }
      }
    }
  }

  lemma {:induction false} SortedByIdIsSorted(members: seq<Member>)
    requires DistinctAgents(members)
    ensures Ascending(SortedById(members)) && |SortedById(members)| == |members|
    ensures forall x :: x in SortedById(members) <==> x in members
  {
    if members != [] {
      var n := |members| - 1;
      SortedByIdIsSorted(members[..n]);
      InsertKeepsOrder(members[n], SortedById(members[..n]));
      assert members == members[..n] + [members[n]];
    }
  }

  // Two ascending lists of the same members are the same list.
  lemma {:induction false} AscendingIsUnique(a: seq<Member>, b: seq<Member>)
    requires Ascending(a) && Ascending(b) && forall x :: x in a <==> x in b
    ensures a == b
  {
    EmptyTogether(a, b);
    if a != [] {
      assert a[0] in b && b[0] in a;
      var i :| 0 <= i < |b| && b[i] == a[0];
      var j :| 0 <= j < |a| && a[j] == b[0];
      BeforeIsTotal(a[0].agentId, b[0].agentId);
      assert a[0] == b[0];
      TailIsRest(a);
      TailIsRest(b);
      AscendingIsUnique(a[1..], b[1..]);
    }
  }

  lemma EmptyTogether(a: seq<Member>, b: seq<Member>)
    requires forall x :: x in a <==> x in b
    ensures a == [] <==> b == []
  {
    if a != [] { assert a[0] in b; }
    if b != [] { assert b[0] in a; }
  }

  lemma TailIsRest(a: seq<Member>)
    requires Ascending(a) && a != []
    ensures forall x :: x in a[1..] <==> x in a && x != a[0]
  {
    assert a == [a[0]] + a[1..];
    BeforeIsTotal(a[0].agentId, a[0].agentId);
  }

  // ---------------------------------------------------------------- who is resolved

  // The members of a roster, one for each assignment that speaks.
  function Speakers(c: Catalog, scope: Scope, roles: seq<Role>, roster: seq<Assignment>): seq<Member> {
    if roster == [] then []
    else
      var before, verdict := Speakers(c, scope, roles, roster[..|roster| - 1]),
        Judge(c, scope, roles, roster[|roster| - 1]);
      if verdict.Speaks? then before + [verdict.member] else before
  }

  predicate Broken(c: Catalog, scope: Scope, roles: seq<Role>, roster: seq<Assignment>) {
    exists a :: a in roster && Judge(c, scope, roles, a).Stop?
  }

  lemma {:induction false} GatherIsAllOrNothing(c: Catalog, scope: Scope, roles: seq<Role>,
      roster: seq<Assignment>, maximum: int)
    requires maximum >= 0
    ensures var gathered, speakers := Gather(c, scope, roles, roster, maximum), Speakers(c, scope, roles, roster);
      if Broken(c, scope, roles, roster) || |speakers| > maximum then gathered.Refused? else gathered == List(speakers)
  {
    if roster != [] {
      var n := |roster| - 1;
      GatherIsAllOrNothing(c, scope, roles, roster[..n], maximum);
      assert roster == roster[..n] + [roster[n]];
      assert Broken(c, scope, roles, roster) <==>
        Broken(c, scope, roles, roster[..n]) || Judge(c, scope, roles, roster[n]).Stop?;
    }
  }

  // An agent that is to be counted in: active, in a speaking role.
  predicate Participates(c: Catalog, roles: seq<Role>, a: Assignment) {
    Speaking(RoleOf(roles, a.roleId)) && c.agent(a.agentId).Found? &&
    c.agent(a.agentId).value.rollout == "active" && !c.agent(a.agentId).value.activating
  }

  predicate IsFit(c: Catalog, roles: seq<Role>, a: Assignment, m: Member) {
    m.agentId == a.agentId && m.role == RoleOf(roles, a.roleId) &&
    (m.role.requiredDefinitions == [] || m.definition.id in m.role.requiredDefinitions) &&
    forall s :: s in m.role.requiredSkills ==> s in m.definition.skills
  }

  lemma SpeaksAsIs(c: Catalog, scope: Scope, roles: seq<Role>, a: Assignment)
    ensures var verdict := Judge(c, scope, roles, a);
      (verdict.Speaks? ==> Participates(c, roles, a) && IsFit(c, roles, a, verdict.member)) &&
      (Participates(c, roles, a) ==> verdict.Speaks? || verdict.Stop?)
  {
  }

  lemma {:induction false} SpeakersAre(c: Catalog, scope: Scope, roles: seq<Role>, roster: seq<Assignment>)
    requires UniqueAgents(roster)
    ensures DistinctAgents(Speakers(c, scope, roles, roster))
    ensures forall m :: m in Speakers(c, scope, roles, roster) <==>
      exists a :: a in roster && Judge(c, scope, roles, a) == Speaks(m)
  {
    if roster != [] {
      var n := |roster| - 1;
      SpeakersAre(c, scope, roles, roster[..n]);
      assert roster == roster[..n] + [roster[n]];
      forall m | m in Speakers(c, scope, roles, roster[..n]) ensures m.agentId != roster[n].agentId {
        var a :| a in roster[..n] && Judge(c, scope, roles, a) == Speaks(m);
        SpeaksAsIs(c, scope, roles, a);
      }
      SpeaksAsIs(c, scope, roles, roster[n]);
    }
  }

  // A list is strictly ascending, neither empty nor too long, and holds the active members in
  // speaking roles: all of them and nobody else, each fit for its role.
  lemma ListIsExact(c: Catalog, scope: Scope, roles: seq<Role>, roster: seq<Assignment>, maximum: int)
    requires maximum >= 0 && UniqueAgents(roster) && Resolved(c, scope, roles, roster, maximum).List?
    ensures var list := Resolved(c, scope, roles, roster, maximum).members;
      Ascending(list) && 1 <= |list| <= maximum &&
      (forall a :: a in roster && Participates(c, roles, a) ==> exists m :: m in list && m.agentId == a.agentId) &&
      (forall m :: m in list ==> exists a :: a in roster && Participates(c, roles, a) && IsFit(c, roles, a, m))
  {
    GatherIsAllOrNothing(c, scope, roles, roster, maximum);
    SpeakersAre(c, scope, roles, roster);
    SortedByIdIsSorted(Speakers(c, scope, roles, roster));
    var list := Resolved(c, scope, roles, roster, maximum).members;
    forall a | a in roster && Participates(c, roles, a) ensures exists m :: m in list && m.agentId == a.agentId {
      SpeaksAsIs(c, scope, roles, a);
      assert Judge(c, scope, roles, a).member in list;
    }
    forall m | m in list ensures exists a :: a in roster && Participates(c, roles, a) && IsFit(c, roles, a, m) {
      var a :| a in roster && Judge(c, scope, roles, a) == Speaks(m);
      SpeaksAsIs(c, scope, roles, a);
    }
  }

  // The same of the whole resolution: that no agent is assigned twice is validated before.
  lemma OutcomeIsExact(c: Catalog, scope: Scope, maximum: int, channel: Option<Channel>, trigger: Option<Message>)
    requires maximum >= 1 && Outcome(c, scope, maximum, channel, trigger).List?
    ensures channel.Some? && c.team(channel.value.ownerId).Found?
    ensures var team, list := c.team(channel.value.ownerId).value, Outcome(c, scope, maximum, channel, trigger).members;
      TeamIsActive(team, channel.value.ownerId, scope) &&
      c.teamDefinition(team.definitionId, team.activeVersion).Found? &&
      Ascending(list) && 1 <= |list| <= maximum &&
      (var roles := c.teamDefinition(team.definitionId, team.activeVersion).value.roles;
       (forall a :: a in team.roster && Participates(c, roles, a) ==>
         exists m :: m in list && m.agentId == a.agentId) &&
       (forall m :: m in list ==> exists a :: a in team.roster && Participates(c, roles, a) && IsFit(c, roles, a, m)))
  {
    var team := c.team(channel.value.ownerId).value;
    var definition := c.teamDefinition(team.definitionId, team.activeVersion).value;
    ListIsExact(c, scope, definition.roles, team.roster, maximum);
  }

  // ---------------------------------------------------------------- the order of the roster

  lemma {:induction false} CountedTwice<T>(s: seq<T>, x: T) returns (i: int, j: int)
    requires multiset(s)[x] >= 2
    ensures 0 <= i < j < |s| && s[i] == s[j] == x
  {
    var n := |s| - 1;
    assert s == s[..n] + [s[n]];
    if s[n] == x {
      assert x in multiset(s[..n]);
      i :| 0 <= i < n && s[i] == x;
      j := n;
    } else {
      i, j := CountedTwice(s[..n], x);
    }
  }

  lemma TwiceIsCounted<T>(s: seq<T>, i: int, j: int)
    requires 0 <= i < j < |s| && s[i] == s[j]
    ensures multiset(s)[s[i]] >= 2
  {
    assert s == s[..j] + s[j..];
    assert s[..j][i] == s[i] && s[j..][0] == s[i];
  }

  // `key` is the agent of an assignment, or its id: that no two have the same does not depend on
  // the order.
  predicate Unique(roster: seq<Assignment>, key: Assignment -> string) {
    forall i, j :: 0 <= i < j < |roster| ==> key(roster[i]) != key(roster[j])
  }

  lemma KeysDiffer(roster: seq<Assignment>, key: Assignment -> string, k: int, l: int)
    requires Unique(roster, key) && 0 <= k < l < |roster|
    ensures key(roster[k]) != key(roster[l])
  {
  }

  lemma UniqueInAnyOrder(roster: seq<Assignment>, other: seq<Assignment>, key: Assignment -> string)
    requires multiset(roster) == multiset(other) && Unique(roster, key)
    ensures Unique(other, key)
  {
    forall i, j | 0 <= i < j < |other| ensures key(other[i]) != key(other[j]) {
      if other[i] == other[j] {
        TwiceIsCounted(other, i, j);
        var k, l := CountedTwice(roster, other[i]);
        KeysDiffer(roster, key, k, l);
      } else {
        assert other[i] in multiset(other) && other[j] in multiset(other);
        var k :| 0 <= k < |roster| && roster[k] == other[i];
        var l :| 0 <= l < |roster| && roster[l] == other[j];
        assert k < l || l < k;
      }
    }
  }

  predicate SameOutcome(a: Resolution, b: Resolution) {
    if a.Refused? then b.Refused? else a == b
  }

  // The order of the roster does not matter: the same list, nobody, or an error both times.
  lemma ResolvedInAnyOrder(c: Catalog, scope: Scope, roles: seq<Role>, roster: seq<Assignment>,
      other: seq<Assignment>, maximum: int)
    requires maximum >= 0 && UniqueAgents(roster) && UniqueAgents(other) && forall a :: a in roster <==> a in other
    ensures SameOutcome(Resolved(c, scope, roles, roster, maximum), Resolved(c, scope, roles, other, maximum))
  {
    GatherIsAllOrNothing(c, scope, roles, roster, maximum);
    GatherIsAllOrNothing(c, scope, roles, other, maximum);
    assert Broken(c, scope, roles, roster) == Broken(c, scope, roles, other);
    SpeakersAre(c, scope, roles, roster);
    SpeakersAre(c, scope, roles, other);
    SortedByIdIsSorted(Speakers(c, scope, roles, roster));
    SortedByIdIsSorted(Speakers(c, scope, roles, other));
    AscendingIsUnique(SortedById(Speakers(c, scope, roles, roster)), SortedById(Speakers(c, scope, roles, other)));
  }

  // The whole resolution, for two catalogs that differ in the order of one team's roster.
  lemma OrderDoesNotMatter(c: Catalog, d: Catalog, scope: Scope, maximum: int, channel: Option<Channel>,
      trigger: Option<Message>)
    requires maximum >= 1 && channel.Some?
    requires c.teamDefinition == d.teamDefinition && c.agent == d.agent
    requires c.agentDefinition == d.agentDefinition && c.portable == d.portable
    requires c.team(channel.value.ownerId).Found? && d.team(channel.value.ownerId).Found?
    requires var a, b := c.team(channel.value.ownerId).value, d.team(channel.value.ownerId).value;
      b == a.(roster := b.roster) && multiset(a.roster) == multiset(b.roster)
    ensures SameOutcome(Outcome(c, scope, maximum, channel, trigger), Outcome(d, scope, maximum, channel, trigger))
  {
    var a, b := c.team(channel.value.ownerId).value, d.team(channel.value.ownerId).value;
    var definition := c.teamDefinition(a.definitionId, a.activeVersion);
    if definition.Found? {
      ValidInAnyOrder(a, b, definition.value);
      if ValidDeployment(a, definition.value) {
        InAnyOrder(a.roster, b.roster);
        ResolvedInAnyOrder(c, scope, definition.value.roles, a.roster, b.roster, maximum);
        SameCatalog(c, d, scope, definition.value.roles, b.roster, maximum);
      }
    }
  }

  lemma InAnyOrder(roster: seq<Assignment>, other: seq<Assignment>)
    requires multiset(roster) == multiset(other)
    ensures forall a :: a in roster <==> a in other
  {
    forall a ensures a in roster <==> a in other {
      assert a in roster <==> a in multiset(roster);
      assert a in other <==> a in multiset(other);
    }
  }

  lemma ValidInAnyOrder(a: Deployment, b: Deployment, definition: TeamDefinition)
    requires b == a.(roster := b.roster) && multiset(a.roster) == multiset(b.roster)
    ensures ValidDeployment(a, definition) <==> ValidDeployment(b, definition)
  {
    InAnyOrder(a.roster, b.roster);
    UniqueEitherWay(a.roster, b.roster);
    UniqueEitherWay(b.roster, a.roster);
  }

  lemma UniqueEitherWay(roster: seq<Assignment>, other: seq<Assignment>)
    requires multiset(roster) == multiset(other)
    ensures UniqueIds(roster) ==> UniqueIds(other)
    ensures UniqueAgents(roster) ==> UniqueAgents(other)
  {
    if UniqueIds(roster) { UniqueInAnyOrder(roster, other, (x: Assignment) => x.id); }
    if UniqueAgents(roster) { UniqueInAnyOrder(roster, other, (x: Assignment) => x.agentId); }
  }

  lemma {:induction false} SameCatalog(c: Catalog, d: Catalog, scope: Scope, roles: seq<Role>,
      roster: seq<Assignment>, maximum: int)
    requires c.agent == d.agent && c.agentDefinition == d.agentDefinition && c.portable == d.portable
    ensures Gather(c, scope, roles, roster, maximum) == Gather(d, scope, roles, roster, maximum)
  {
    if roster != [] {
      SameCatalog(c, d, scope, roles, roster[..|roster| - 1], maximum);
    }
  }

  // ---------------------------------------------------------------- which error it is

  lemma {:induction false} FirstStops(c: Catalog, scope: Scope, roles: seq<Role>, a: Assignment,
      rest: seq<Assignment>, maximum: int)
    requires Judge(c, scope, roles, a).Stop?
    ensures Gather(c, scope, roles, [a] + rest, maximum) == Refused(Judge(c, scope, roles, a).error)
  {
    var roster := [a] + rest;
    assert roster[..1] == [a] && [a][..0] == [];
    assert Gather(c, scope, roles, [a], maximum) == Refused(Judge(c, scope, roles, a).error);
    GatherIsSettled(c, scope, roles, roster, maximum, 1);
  }

  // An error is that of a broken assignment, or that there are too many speakers.
  lemma {:induction false} ErrorIsOneOf(c: Catalog, scope: Scope, roles: seq<Role>, roster: seq<Assignment>,
      maximum: int)
    requires maximum >= 0 && Gather(c, scope, roles, roster, maximum).Refused?
    ensures var error := Gather(c, scope, roles, roster, maximum).error;
      (exists a :: a in roster && Judge(c, scope, roles, a) == Stop(error)) ||
      (error == TooMany && |Speakers(c, scope, roles, roster)| > maximum)
  {
    if roster != [] {
      var n := |roster| - 1;
      assert roster == roster[..n] + [roster[n]];
      if Gather(c, scope, roles, roster[..n], maximum).Refused? {
        ErrorIsOneOf(c, scope, roles, roster[..n], maximum);
      } else {
        GatherIsAllOrNothing(c, scope, roles, roster[..n], maximum);
        assert Judge(c, scope, roles, roster[n]).Stop? ==> roster[n] in roster;
      }
    }
  }

  lemma JudgeIsNeverTooMany(c: Catalog, scope: Scope, roles: seq<Role>, a: Assignment)
    ensures Judge(c, scope, roles, a) != Stop(TooMany)
  {
  }

  ghost predicate IsOrderOf(other: seq<Assignment>, roster: seq<Assignment>) {
    multiset(other) == multiset(roster)
  }

  // The same error in every order.
  ghost predicate OneError(c: Catalog, scope: Scope, roles: seq<Role>, roster: seq<Assignment>, maximum: int) {
    forall x, y :: IsOrderOf(x, roster) && IsOrderOf(y, roster) ==>
      Resolved(c, scope, roles, x, maximum) == Resolved(c, scope, roles, y, maximum)
  }

  // All broken assignments are broken alike.
  predicate BrokenAlike(c: Catalog, scope: Scope, roles: seq<Role>, roster: seq<Assignment>) {
    forall a, b :: a in roster && b in roster && Judge(c, scope, roles, a).Stop? && Judge(c, scope, roles, b).Stop? ==>
      Judge(c, scope, roles, a) == Judge(c, scope, roles, b)
  }

  lemma {:induction false} SpeakersCount(c: Catalog, scope: Scope, roles: seq<Role>, roster: seq<Assignment>,
      other: seq<Assignment>)
    requires UniqueAgents(roster) && UniqueAgents(other) && forall a :: a in roster <==> a in other
    ensures |Speakers(c, scope, roles, roster)| == |Speakers(c, scope, roles, other)|
  {
    SpeakersAre(c, scope, roles, roster);
    SpeakersAre(c, scope, roles, other);
    SortedByIdIsSorted(Speakers(c, scope, roles, roster));
    SortedByIdIsSorted(Speakers(c, scope, roles, other));
    AscendingIsUnique(SortedById(Speakers(c, scope, roles, roster)), SortedById(Speakers(c, scope, roles, other)));
  }

  lemma ToFront(roster: seq<Assignment>, i: int)
    requires 0 <= i < |roster|
    ensures IsOrderOf([roster[i]] + (roster[..i] + roster[i + 1..]), roster)
  {
    assert roster == roster[..i] + [roster[i]] + roster[i + 1..];
  }

  lemma AnyInFront(c: Catalog, scope: Scope, roles: seq<Role>, roster: seq<Assignment>, a: Assignment, maximum: int)
    requires a in roster && Judge(c, scope, roles, a).Stop?
    ensures var refused := Refused(Judge(c, scope, roles, a).error);
      exists x :: IsOrderOf(x, roster) && Resolved(c, scope, roles, x, maximum) == refused
  {
    var i :| 0 <= i < |roster| && roster[i] == a;
    ToFront(roster, i);
    FirstStops(c, scope, roles, a, roster[..i] + roster[i + 1..], maximum);
  }

  function Where(roster: seq<Assignment>, p: Assignment -> bool): seq<Assignment> {
    if roster == [] then []
    else
      var front, last := Where(roster[..|roster| - 1], p), roster[|roster| - 1];
      if p(last) then front + [last] else front
  }

  function Unbroken(c: Catalog, scope: Scope, roles: seq<Role>, roster: seq<Assignment>): seq<Assignment> {
    Where(roster, (a: Assignment) => !Judge(c, scope, roles, a).Stop?)
  }

  function BrokenOnes(c: Catalog, scope: Scope, roles: seq<Role>, roster: seq<Assignment>): seq<Assignment> {
    Where(roster, (a: Assignment) => Judge(c, scope, roles, a).Stop?)
  }

  lemma {:induction false} PartsAreAll(roster: seq<Assignment>, p: Assignment -> bool, q: Assignment -> bool)
    requires forall a :: p(a) == !q(a)
    ensures multiset(Where(roster, p)) + multiset(Where(roster, q)) == multiset(roster)
  {
    if roster != [] {
      var n := |roster| - 1;
      PartsAreAll(roster[..n], p, q);
      assert roster == roster[..n] + [roster[n]];
    }
  }

  lemma {:induction false} UnbrokenSpeak(c: Catalog, scope: Scope, roles: seq<Role>, roster: seq<Assignment>)
    ensures Speakers(c, scope, roles, Unbroken(c, scope, roles, roster)) == Speakers(c, scope, roles, roster)
    ensures forall k :: 0 <= k < |Unbroken(c, scope, roles, roster)| ==>
      !Judge(c, scope, roles, Unbroken(c, scope, roles, roster)[k]).Stop?
  {
    if roster != [] {
      var n := |roster| - 1;
      UnbrokenSpeak(c, scope, roles, roster[..n]);
      SpeakersMore(c, scope, roles, Unbroken(c, scope, roles, roster[..n]), roster[n]);
    }
  }

  lemma SpeakersMore(c: Catalog, scope: Scope, roles: seq<Role>, front: seq<Assignment>, a: Assignment)
    ensures Speakers(c, scope, roles, front + [a]) == Speakers(c, scope, roles, front) +
      (if Judge(c, scope, roles, a).Speaks? then [Judge(c, scope, roles, a).member] else [])
  {
    assert (front + [a])[..|front|] == front;
  }

  lemma UnbrokenFirst(c: Catalog, scope: Scope, roles: seq<Role>, roster: seq<Assignment>)
    ensures IsOrderOf(Unbroken(c, scope, roles, roster) + BrokenOnes(c, scope, roles, roster), roster)
    ensures Speakers(c, scope, roles, Unbroken(c, scope, roles, roster)) == Speakers(c, scope, roles, roster)
    ensures !Broken(c, scope, roles, Unbroken(c, scope, roles, roster))
  {
    PartsAreAll(roster, (a: Assignment) => !Judge(c, scope, roles, a).Stop?,
      (a: Assignment) => Judge(c, scope, roles, a).Stop?);
    UnbrokenSpeak(c, scope, roles, roster);
  }

  // With too many speakers, the ones that are not broken are too many before a broken one is met.
  lemma TooManyInSomeOrder(c: Catalog, scope: Scope, roles: seq<Role>, roster: seq<Assignment>, maximum: int)
    requires maximum >= 0 && |Speakers(c, scope, roles, roster)| > maximum
    ensures exists x :: IsOrderOf(x, roster) && Resolved(c, scope, roles, x, maximum) == Refused(TooMany)
  {
    var first, rest := Unbroken(c, scope, roles, roster), BrokenOnes(c, scope, roles, roster);
    UnbrokenFirst(c, scope, roles, roster);
    GatherIsAllOrNothing(c, scope, roles, first, maximum);
    ErrorIsOneOf(c, scope, roles, first, maximum);
    assert (first + rest)[..|first|] == first;
    GatherIsSettled(c, scope, roles, first + rest, maximum, |first|);
  }

  // Which error a roster gives is the same in every order if and only if all that is broken in it is
  // broken alike, and it does not have too many speakers besides.
  lemma OneErrorIff(c: Catalog, scope: Scope, roles: seq<Role>, roster: seq<Assignment>, maximum: int)
    requires maximum >= 0 && UniqueAgents(roster)
    requires Broken(c, scope, roles, roster) || |Speakers(c, scope, roles, roster)| > maximum
    ensures OneError(c, scope, roles, roster, maximum) <==>
      BrokenAlike(c, scope, roles, roster) &&
      !(Broken(c, scope, roles, roster) && |Speakers(c, scope, roles, roster)| > maximum)
  {
    if OneError(c, scope, roles, roster, maximum) {
      forall a, b | a in roster && b in roster && Judge(c, scope, roles, a).Stop? && Judge(c, scope, roles, b).Stop?
        ensures Judge(c, scope, roles, a) == Judge(c, scope, roles, b)
      {
        AnyInFront(c, scope, roles, roster, a, maximum);
        AnyInFront(c, scope, roles, roster, b, maximum);
      }
      if Broken(c, scope, roles, roster) && |Speakers(c, scope, roles, roster)| > maximum {
        var a :| a in roster && Judge(c, scope, roles, a).Stop?;
        AnyInFront(c, scope, roles, roster, a, maximum);
        TooManyInSomeOrder(c, scope, roles, roster, maximum);
        JudgeIsNeverTooMany(c, scope, roles, a);
      }
    } else if !Broken(c, scope, roles, roster) {
      forall x | IsOrderOf(x, roster) ensures Resolved(c, scope, roles, x, maximum) == Refused(TooMany) {
        TooManyInAnyOrder(c, scope, roles, roster, x, maximum);
      }
    } else if BrokenAlike(c, scope, roles, roster) && |Speakers(c, scope, roles, roster)| <= maximum {
      var a :| a in roster && Judge(c, scope, roles, a).Stop?;
      forall x | IsOrderOf(x, roster)
        ensures Resolved(c, scope, roles, x, maximum) == Refused(Judge(c, scope, roles, a).error) {
        AlikeInAnyOrder(c, scope, roles, roster, x, a, maximum);
      }
    }
  }

  lemma TooManyInAnyOrder(c: Catalog, scope: Scope, roles: seq<Role>, roster: seq<Assignment>, x: seq<Assignment>,
      maximum: int)
    requires maximum >= 0 && UniqueAgents(roster) && |Speakers(c, scope, roles, roster)| > maximum
    requires !Broken(c, scope, roles, roster) && IsOrderOf(x, roster)
    ensures Resolved(c, scope, roles, x, maximum) == Refused(TooMany)
  {
    InAnyOrder(roster, x);
    UniqueEitherWay(roster, x);
    SpeakersCount(c, scope, roles, roster, x);
    GatherIsAllOrNothing(c, scope, roles, x, maximum);
    ErrorIsOneOf(c, scope, roles, x, maximum);
  }

  lemma AlikeInAnyOrder(c: Catalog, scope: Scope, roles: seq<Role>, roster: seq<Assignment>, x: seq<Assignment>,
      a: Assignment, maximum: int)
    requires maximum >= 0 && UniqueAgents(roster) && |Speakers(c, scope, roles, roster)| <= maximum
    requires BrokenAlike(c, scope, roles, roster) && a in roster
    requires Judge(c, scope, roles, a).Stop? && IsOrderOf(x, roster)
    ensures Resolved(c, scope, roles, x, maximum) == Refused(Judge(c, scope, roles, a).error)
  {
    InAnyOrder(roster, x);
    UniqueEitherWay(roster, x);
    SpeakersCount(c, scope, roles, roster, x);
    assert Broken(c, scope, roles, x);
    GatherIsAllOrNothing(c, scope, roles, x, maximum);
    ErrorIsOneOf(c, scope, roles, x, maximum);
  }
}
