/** The team store: one document per team, keyed by team name, holding the
    team's grants in insertion order, and the mutations the tracker applies
    to it. The document collection is modelled by its contents, a map from
    team name to grants; the roster and the flat list of valid skill names
    are inputs, and so is the instant a new grant is stamped with.
 */
module TeamStore {
  import opened Outcomes
  import opened Grants

  /** Contents of the collection: team name (`_id`) to its `skills` array. */
  type Store = map<string, seq<Grant>>

  /** A roster entry of the static team configuration. */
  datatype TeamConfig = TeamConfig(name: string, champion: string)

  type Roster = seq<TeamConfig>

  /** The roster lists a team of this name. */
  predicate InRoster(roster: Roster, team: string) {
    exists i :: 0 <= i < |roster| && roster[i].name == team
  }

  /** The grants a team reads as: its document's, or none before it exists. */
  function Current(store: Store, team: string): seq<Grant> {
    if team in store then store[team] else []
  }

  /** Every team document keeps at most one grant per skill name. */
  ghost predicate WellFormed(store: Store) {
    forall team :: team in store ==> Unique(store[team])
  }

  /** The stores agree on every team but `team`. */
  ghost predicate OthersUnchanged(before: Store, after: Store, team: string) {
    && after.Keys - {team} == before.Keys - {team}
    && forall t :: t in before && t != team ==> t in after && after[t] == before[t]
  }

  /** `after` keeps every document of `before` and adds only empty ones, so
      every team reads the same grants from both. */
  ghost predicate GainsOnlyEmpty(before: Store, after: Store) {
    && (forall t :: t in before ==> t in after && after[t] == before[t])
    && (forall t :: t in after && t !in before ==> after[t] == [])
  }

  lemma GainsOnlyEmptyKeepsCurrent(before: Store, after: Store, team: string)
    requires GainsOnlyEmpty(before, after)
    ensures Current(after, team) == Current(before, team)
  {
  }

  lemma GainsOnlyEmptyTransitive(s1: Store, s2: Store, s3: Store)
    requires GainsOnlyEmpty(s1, s2) && GainsOnlyEmpty(s2, s3)
    ensures GainsOnlyEmpty(s1, s3)
  {
  }

  /** Inserts an empty document for a roster team. */
  function CreateTeam(store: Store, roster: Roster, team: string): (r: Result<Store>)
    ensures !InRoster(roster, team) ==> r == Err(TeamNotFound(team))
    ensures InRoster(roster, team) && team in store ==> r == Err(DuplicateTeam(team))
    ensures r.Ok? <==> InRoster(roster, team) && team !in store
    ensures r.Ok? ==> r.value.Keys == store.Keys + {team} && r.value[team] == []
    ensures r.Ok? ==> OthersUnchanged(store, r.value, team)
    ensures r.Ok? && WellFormed(store) ==> WellFormed(r.value)
  {
    if !InRoster(roster, team) then Err(TeamNotFound(team))
    else if team in store then Err(DuplicateTeam(team))
    else Ok(store[team := []])
  }

  /** Reads a team's grants, creating its document first when it has none
      and then reading again. The result holds the store after the read. */
  function TeamSkills(store: Store, roster: Roster, team: string): (r: Result<(Store, seq<Grant>)>)
    ensures team in store ==> r == Ok((store, store[team]))
    ensures team !in store && InRoster(roster, team) ==> r == Ok((store[team := []], []))
    ensures team !in store && !InRoster(roster, team) ==> r == Err(TeamNotFound(team))
    ensures r.Ok? ==> team in r.value.0 && r.value.1 == r.value.0[team] == Current(store, team)
    ensures r.Ok? ==> r.value.0.Keys == store.Keys + {team} && OthersUnchanged(store, r.value.0, team)
    ensures r.Ok? && WellFormed(store) ==> WellFormed(r.value.0)
    decreases if team in store then 0 else 1
  {
    if team in store then Ok((store, store[team]))
    else
      var created :- CreateTeam(store, roster, team);
      TeamSkills(created, roster, team)
  }

  /** Appends a grant `{skill, now}` unless the team already holds one of
      that name. An update that matches no document changes nothing. */
  function AddToSkillSet(store: Store, team: string, skill: string, now: int): (r: Result<Store>)
    ensures r.Err? <==> team in store && HasSkill(store[team], skill)
    ensures r.Err? ==> r.error == SkillAlreadyEnabled(skill)
    ensures r.Ok? ==> r.value.Keys == store.Keys && OthersUnchanged(store, r.value, team)
    ensures r.Ok? && team in store ==> r.value[team] == store[team] + [Grant(skill, now)]
    ensures r.Ok? && team in store ==> HasSkill(r.value[team], skill)
    ensures r.Ok? && team !in store ==> r.value == store
    ensures r.Ok? && WellFormed(store) ==> WellFormed(r.value)
  {
    if team in store && HasSkill(store[team], skill) then Err(SkillAlreadyEnabled(skill))
    else if team in store then
      var grants := store[team] + [Grant(skill, now)];
      assert grants[|store[team]|].name == skill;
      Ok(store[team := grants])
    else Ok(store)
  }

  /** Pulls every grant named `skill` from the team's document; never fails. */
  function RemoveFromSkillSet(store: Store, team: string, skill: string): (r: Result<Store>)
    ensures r.Ok?
    ensures r.value.Keys == store.Keys && OthersUnchanged(store, r.value, team)
    ensures team in store ==> r.value[team] == Without(store[team], skill)
    ensures team in store ==> !HasSkill(r.value[team], skill)
    ensures team in store ==> forall g :: g in r.value[team] <==> g in store[team] && g.name != skill
    ensures !HasSkill(Current(store, team), skill) ==> r.value == store
    ensures WellFormed(store) ==> WellFormed(r.value)
  {
    if team in store then Ok(store[team := Without(store[team], skill)]) else Ok(store)
  }

  /** Validates the skill name, reads the team's grants (creating the team
      if needed) and then removes the skill if held, adds it otherwise. */
  function ToggleSkill(store: Store, roster: Roster, validSkills: set<string>,
                       team: string, skill: string, now: int): (r: Result<Store>)
    ensures skill !in validSkills ==> r == Err(SkillNotValid(skill))
    ensures skill in validSkills && team !in store && !InRoster(roster, team) ==> r == Err(TeamNotFound(team))
    ensures r.Ok? <==> skill in validSkills && (team in store || InRoster(roster, team))
    ensures r.Ok? ==> r.value.Keys == store.Keys + {team} && OthersUnchanged(store, r.value, team)
    ensures r.Ok? ==> (HasSkill(r.value[team], skill) <==> !HasSkill(Current(store, team), skill))
    ensures r.Ok? ==> Names(r.value[team]) - {skill} == Names(Current(store, team)) - {skill}
    ensures r.Ok? ==> r.value[team] == if HasSkill(Current(store, team), skill)
                                       then Without(Current(store, team), skill)
                                       else Current(store, team) + [Grant(skill, now)]
    ensures r.Ok? && WellFormed(store) ==> WellFormed(r.value)
  {
    if skill !in validSkills then Err(SkillNotValid(skill))
    else
      var got :- TeamSkills(store, roster, team);
      var (read, grants) := got;
      if HasSkill(grants, skill) then
        WithoutNames(grants, skill);
        RemoveFromSkillSet(read, team, skill)
      else
        NamesAppend(grants, Grant(skill, now));
        AddToSkillSet(read, team, skill, now)
  }

  // ---------------------------------------------------------------------
  // Properties relating several operations.

  /** Toggling on a skill the team lacked and toggling it off again gives
      back exactly the team's original grants. */
  lemma ToggleOnThenOffRestores(store: Store, roster: Roster, validSkills: set<string>,
                                team: string, skill: string, now1: int, now2: int)
    requires skill in validSkills
    requires team in store || InRoster(roster, team)
    requires !HasSkill(Current(store, team), skill)
    ensures var once := ToggleSkill(store, roster, validSkills, team, skill, now1);
            && once.Ok?
            && var twice := ToggleSkill(once.value, roster, validSkills, team, skill, now2);
            && twice.Ok?
            && twice.value[team] == Current(store, team)
  {
    var before := Current(store, team);
    var once := ToggleSkill(store, roster, validSkills, team, skill, now1).value;
    assert once[team] == before + [Grant(skill, now1)];
    AddThenRemoveRestores(before, skill, now1);
  }

  /** Toggling off a skill the team held and toggling it on again restores
      the set of names the team holds; only the grant's instant changes. */
  lemma ToggleOffThenOnRestoresNames(store: Store, roster: Roster, validSkills: set<string>,
                                     team: string, skill: string, now1: int, now2: int)
    requires skill in validSkills
    requires team in store || InRoster(roster, team)
    requires HasSkill(Current(store, team), skill)
    ensures var once := ToggleSkill(store, roster, validSkills, team, skill, now1);
            && once.Ok?
            && var twice := ToggleSkill(once.value, roster, validSkills, team, skill, now2);
            && twice.Ok?
            && Names(twice.value[team]) == Names(Current(store, team))
  {
    var before := Current(store, team);
    var once := ToggleSkill(store, roster, validSkills, team, skill, now1).value;
    assert once[team] == Without(before, skill);
    RemoveThenAddRestoresNames(before, skill, now2);
  }

  /** Pulling a held skill and granting it again restores the names held. */
  lemma {:induction false} RemoveThenAddRestoresNames(grants: seq<Grant>, skill: string, now: int)
    requires HasSkill(grants, skill)
    ensures Names(Without(grants, skill) + [Grant(skill, now)]) == Names(grants)
  {
    WithoutNames(grants, skill);
    NamesAppend(Without(grants, skill), Grant(skill, now));
    assert skill in Names(grants);
  }

  /** Granting a skill not held and pulling it again restores the grants. */
  lemma {:induction false} AddThenRemoveRestores(grants: seq<Grant>, skill: string, now: int)
    requires !HasSkill(grants, skill)
    ensures Without(grants + [Grant(skill, now)], skill) == grants
  {
    WithoutAppend(grants, [Grant(skill, now)], skill);
    assert Without([Grant(skill, now)], skill) == [];
  }

  /** Adding a skill twice fails the second time. */
  lemma AddTwiceFails(store: Store, team: string, skill: string, now1: int, now2: int, once: Store)
    requires team in store
    requires AddToSkillSet(store, team, skill, now1) == Ok(once)
    ensures AddToSkillSet(once, team, skill, now2) == Err(SkillAlreadyEnabled(skill))
  {
  }

  /** Reading a team's grants a second time returns them again and changes nothing. */
  lemma TeamSkillsIdempotent(store: Store, roster: Roster, team: string)
    requires TeamSkills(store, roster, team).Ok?
    ensures var (after, grants) := TeamSkills(store, roster, team).value;
            TeamSkills(after, roster, team) == Ok((after, grants))
  {
  }
}
