/**
  The rules a participation round goes by, one by one: what each assignment of the roster comes to,
  and what a round is refused for before its roster is looked at.
 */
module ParticipantRules {
  import opened Options
  import opened Participants
  import opened Text

  // ---------------------------------------------------------------- the role

  predicate Named(roles: seq<Role>, id: string) {
    exists i :: 0 <= i < |roles| && roles[i].id == id
  }

  // The role an assignment means: the last of its id, and an empty one if there is none.
  lemma {:induction false} RoleIsTheLastNamed(roles: seq<Role>, id: string) returns (i: int)
    ensures Named(roles, id) ==>
      0 <= i < |roles| && roles[i].id == id && RoleOf(roles, id) == roles[i] &&
      forall j :: i < j < |roles| ==> roles[j].id != id
    ensures !Named(roles, id) ==> RoleOf(roles, id) == Role("", "", [], [])
  {
    i := |roles| - 1;
    if roles != [] && roles[i].id != id {
      var n := i;
      i := RoleIsTheLastNamed(roles[..n], id);
      if Named(roles, id) {
        var j :| 0 <= j < |roles| && roles[j].id == id;
        assert roles[..n][j].id == id;
      }
      assert forall j :: 0 <= j < n ==> roles[..n][j] == roles[j];
    }
  }

  // ---------------------------------------------------------------- one assignment

  // The role takes part in conversations.
  predicate TakesPart(roles: seq<Role>, a: Assignment) {
    RoleOf(roles, a.roleId).participation !in {"observe_only", "disabled"}
  }

  // The agent of the assignment is found, is that agent, and belongs to this workspace.
  predicate IsHere(c: Catalog, scope: Scope, a: Assignment) {
    c.agent(a.agentId).Found? &&
    (var agent := c.agent(a.agentId).value; agent.id == a.agentId && agent.scope == scope && agent.wellFormed)
  }

  // It is to be counted in.
  predicate IsLive(c: Catalog, scope: Scope, roles: seq<Role>, a: Assignment) {
    TakesPart(roles, a) && IsHere(c, scope, a) &&
    (var agent := c.agent(a.agentId).value; agent.rollout == "active" && !agent.activating)
  }

  function DefinitionFor(c: Catalog, a: Assignment): Lookup<AgentDefinition>
    requires c.agent(a.agentId).Found?
  {
    c.agentDefinition(c.agent(a.agentId).value.definitionId, c.agent(a.agentId).value.activeVersion)
  }

  // Its definition is found and is the one it runs.
  predicate IsDefined(c: Catalog, a: Assignment)
    requires c.agent(a.agentId).Found?
  {
    var agent := c.agent(a.agentId).value;
    DefinitionFor(c, a).Found? &&
    (var d := DefinitionFor(c, a).value;
     d.id == agent.definitionId && d.version == agent.activeVersion && d.wellFormed)
  }

  predicate MeetsDefinitions(role: Role, d: AgentDefinition) {
    role.requiredDefinitions == [] || d.id in role.requiredDefinitions
  }

  predicate HasEverySkill(role: Role, d: AgentDefinition) {
    forall k :: 0 <= k < |role.requiredSkills| ==> role.requiredSkills[k] in d.skills
  }

  // Who is passed over: those whose role takes no part, and agents that are not active just now.
  lemma PassedOverIff(c: Catalog, scope: Scope, roles: seq<Role>, a: Assignment)
    ensures Judge(c, scope, roles, a).Skip? <==>
      !TakesPart(roles, a) || (IsHere(c, scope, a) && !IsLive(c, scope, roles, a))
  {
  }

  // Who speaks: a live agent with the workspace's model provider, defined, meeting every demand
  // of its role, under a portable id and a role id of 1 to 80 characters; and as what.
  lemma SpeaksIff(c: Catalog, scope: Scope, roles: seq<Role>, a: Assignment, m: Member)
    ensures var role := RoleOf(roles, a.roleId);
      Judge(c, scope, roles, a) == Speaks(m) <==>
      (IsLive(c, scope, roles, a) && !c.agent(a.agentId).value.ownModelProvider && IsDefined(c, a) &&
       MeetsDefinitions(role, DefinitionFor(c, a).value) && HasEverySkill(role, DefinitionFor(c, a).value) &&
       c.portable(a.agentId) && 1 <= |GoTrim(role.id)| && |GoTrim(role.id)| <= 80 &&
       m == Member(a.agentId, role, DefinitionFor(c, a).value))
  {
    var role := RoleOf(roles, a.roleId);
    if IsLive(c, scope, roles, a) && IsDefined(c, a) {
      SkillsIff(role, DefinitionFor(c, a).value);
    }
  }

  lemma SkillsIff(role: Role, d: AgentDefinition)
    ensures HasEverySkill(role, d) <==> !exists s :: s in role.requiredSkills && s !in d.skills
  {
    if HasEverySkill(role, d) {
      forall s | s in role.requiredSkills ensures s in d.skills {
        var k :| 0 <= k < |role.requiredSkills| && role.requiredSkills[k] == s;
      }
    }
  }

  // What stops a round because of an agent that should take part.
  lemma AgentStopsIff(c: Catalog, scope: Scope, roles: seq<Role>, a: Assignment)
    ensures var verdict := Judge(c, scope, roles, a);
      (verdict == Stop(AgentNotLoaded) <==> TakesPart(roles, a) && c.agent(a.agentId).Failed?) &&
      (verdict == Stop(AgentUnavailable) <==>
        TakesPart(roles, a) && !c.agent(a.agentId).Failed? && !IsHere(c, scope, a)) &&
      (verdict == Stop(OwnModelProvider) <==>
        IsLive(c, scope, roles, a) && c.agent(a.agentId).value.ownModelProvider)
  {
  }

  // And what stops it because of the agent's definition, or of what its role demands.
  lemma DefinitionStopsIff(c: Catalog, scope: Scope, roles: seq<Role>, a: Assignment)
    requires IsLive(c, scope, roles, a) && !c.agent(a.agentId).value.ownModelProvider
    ensures var verdict, role := Judge(c, scope, roles, a), RoleOf(roles, a.roleId);
      (verdict == Stop(DefinitionNotLoaded) <==> DefinitionFor(c, a).Failed?) &&
      (verdict == Stop(InvalidDefinition) <==> !DefinitionFor(c, a).Failed? && !IsDefined(c, a)) &&
      (verdict == Stop(RoleUnmet) <==> IsDefined(c, a) && !MeetsDefinitions(role, DefinitionFor(c, a).value)) &&
      (verdict == Stop(SkillUnmet) <==>
        IsDefined(c, a) && MeetsDefinitions(role, DefinitionFor(c, a).value) &&
        !HasEverySkill(role, DefinitionFor(c, a).value))
  {
    if IsDefined(c, a) {
      SkillsIff(RoleOf(roles, a.roleId), DefinitionFor(c, a).value);
    }
  }

  // ---------------------------------------------------------------- the round

  // The channel is a team's, active, of this workspace, and what set the round off came from it.
  predicate IsForTeam(scope: Scope, channel: Option<Channel>) {
    channel.Some? && channel.value.scope == scope && channel.value.ownerType == "team" &&
    channel.value.ownerId != "" && channel.value.status == "active"
  }

  predicate CameFrom(scope: Scope, channel: Channel, trigger: Option<Message>) {
    trigger.None? || (trigger.value.scope == scope && trigger.value.conversationId == channel.id)
  }

  predicate IsActive(c: Catalog, scope: Scope, channel: Channel) {
    c.team(channel.ownerId).Found? &&
    (var team := c.team(channel.ownerId).value;
     team.id == channel.ownerId && team.scope == scope && team.status == "active" && !team.activating)
  }

  // A team's record agrees with its definition: every assignment has an id, an agent and a role of
  // the definition, and no two have the same id or the same agent.
  predicate Agrees(team: Deployment, definition: TeamDefinition) {
    definition.wellFormed && team.wellFormed && definition.id == team.definitionId &&
    definition.version == team.activeVersion &&
    (forall i :: 0 <= i < |team.roster| ==>
      !GoBlank(team.roster[i].id) && !GoBlank(team.roster[i].agentId) &&
      RoleOf(definition.roles, team.roster[i].roleId).id != "") &&
    (forall i, j :: 0 <= i < |team.roster| && 0 <= j < |team.roster| && i != j ==>
      team.roster[i].id != team.roster[j].id && team.roster[i].agentId != team.roster[j].agentId)
  }

  lemma AgreesIff(team: Deployment, definition: TeamDefinition)
    ensures Agrees(team, definition) <==> definition.wellFormed && ValidDeployment(team, definition)
  {
    if Agrees(team, definition) {
      forall a | a in team.roster
        ensures !GoBlank(a.id) && !GoBlank(a.agentId) && RoleOf(definition.roles, a.roleId).id != ""
      {
        var i :| 0 <= i < |team.roster| && team.roster[i] == a;
      }
    }
    if ValidDeployment(team, definition) {
      forall i | 0 <= i < |team.roster|
        ensures !GoBlank(team.roster[i].id) && !GoBlank(team.roster[i].agentId)
        ensures RoleOf(definition.roles, team.roster[i].roleId).id != ""
      {
        assert team.roster[i] in team.roster;
      }
    }
  }

  // The round gets to the roster exactly if it is for an active team whose record agrees with its
  // definition; and then the roster decides it.
  lemma RoundIsRefusedFor(c: Catalog, scope: Scope, maximum: int, channel: Option<Channel>, trigger: Option<Message>)
    ensures var round := Outcome(c, scope, maximum, channel, trigger);
      if !IsForTeam(scope, channel) then round == Refused(NoTeamChannel)
      else if !CameFrom(scope, channel.value, trigger) then round == Refused(ForeignTrigger)
      else if c.team(channel.value.ownerId).Failed? then round == Refused(TeamNotLoaded)
      else if !IsActive(c, scope, channel.value) then round == Refused(TeamNotActive)
      else
        var team := c.team(channel.value.ownerId).value;
        var definition := c.teamDefinition(team.definitionId, team.activeVersion);
        if definition.Failed? then round == Refused(DefinitionNotLoaded)
        else if definition.Missing? || !Agrees(team, definition.value) then round == Refused(InvalidTeam)
        else round == Resolved(c, scope, definition.value.roles, team.roster, maximum)
  {
    if IsForTeam(scope, channel) && IsActive(c, scope, channel.value) {
      var team := c.team(channel.value.ownerId).value;
      var definition := c.teamDefinition(team.definitionId, team.activeVersion);
      if definition.Found? {
        AgreesIff(team, definition.value);
      }
    }
  }
}
