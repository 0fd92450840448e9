/** Team views: a roster entry joined with the team's live grants, their
    count and the belt they earn.
 */
module Teams {
  import opened Outcomes
  import opened Grants
  import opened Belts
  import opened TeamStore

  datatype TeamView = TeamView(name: string, champion: string, belt: string,
                               skills: seq<Grant>, skillCount: nat)

  /** The first roster entry carrying the name. */
  function FindTeam(roster: Roster, team: string): (r: Result<TeamConfig>)
    ensures r.Ok? <==> InRoster(roster, team)
    ensures r.Err? ==> r.error == MissingRosterEntry(team)
    ensures r.Ok? ==> exists i :: 0 <= i < |roster| && roster[i] == r.value
                                  && forall j :: 0 <= j < i ==> roster[j].name != team
    ensures r.Ok? ==> r.value.name == team
  {
    if |roster| == 0 then Err(MissingRosterEntry(team))
    else if roster[0].name == team then Ok(roster[0])
    else
      var rest := FindTeam(roster[1..], team);
      assert InRoster(roster[1..], team) ==> InRoster(roster, team) by {
        if InRoster(roster[1..], team) {
          var i :| 0 <= i < |roster[1..]| && roster[1..][i].name == team;
          assert roster[i + 1].name == team;
        }
      }
      if rest.Ok? then
        assert exists i :: 0 <= i < |roster| && roster[i] == rest.value
                           && forall j :: 0 <= j < i ==> roster[j].name != team by {
          var i :| 0 <= i < |roster[1..]| && roster[1..][i] == rest.value
                   && forall j :: 0 <= j < i ==> roster[1..][j].name != team;
          assert roster[i + 1] == rest.value;
          forall j | 0 <= j < i + 1
            ensures roster[j].name != team
          {
            if j > 0 {
              assert roster[j] == roster[1..][j - 1];
            }
          }
        }
        rest
      else rest
  }

  /** `view` shows the team `name` holding `grants`: its name, the grants,
      their count and the belt they earn. */
  ghost predicate Shows(view: TeamView, name: string, grants: seq<Grant>, curriculum: Curriculum) {
    && view.name == name
    && view.skills == grants
    && view.skillCount == |grants|
    && view.belt == Belt(grants, curriculum)
  }

  /** The view of one team: reads (and, on first use, creates) its grants,
      then joins them with its roster entry and derived fields. */
  function GetTeam(store: Store, roster: Roster, curriculum: Curriculum, team: string): (r: Result<(Store, TeamView)>)
    ensures r.Ok? <==> InRoster(roster, team)
    ensures !InRoster(roster, team) && team !in store ==> r == Err(TeamNotFound(team))
    ensures !InRoster(roster, team) && team in store ==> r == Err(MissingRosterEntry(team))
    ensures r.Ok? ==> r.value.0.Keys == store.Keys + {team} && r.value.0[team] == Current(store, team)
    ensures r.Ok? ==> GainsOnlyEmpty(store, r.value.0)
    ensures r.Ok? ==> Shows(r.value.1, team, Current(store, team), curriculum)
    ensures r.Ok? ==> FindTeam(roster, team) == Ok(TeamConfig(team, r.value.1.champion))
  {
    var got :- TeamSkills(store, roster, team);
    var (read, grants) := got;
    var entry :- FindTeam(roster, team);
    Ok((read, TeamView(entry.name, entry.champion, Belt(grants, curriculum), grants, |grants|)))
  }

  /** The views of the `pending` roster entries, in order, each read
      against the store the previous one left. Roster teams are never
      rejected, so this walk cannot fail. */
  function GetTeamsFrom(store: Store, roster: Roster, curriculum: Curriculum, pending: Roster): (r: (Store, seq<TeamView>))
    requires forall i :: 0 <= i < |pending| ==> InRoster(roster, pending[i].name)
    ensures |r.1| == |pending|
    ensures GainsOnlyEmpty(store, r.0)
    ensures forall i :: 0 <= i < |pending| ==> pending[i].name in r.0
    decreases |pending|
  {
    if |pending| == 0 then (store, [])
    else
      var got := GetTeam(store, roster, curriculum, pending[0].name).value;
      var rest := GetTeamsFrom(got.0, roster, curriculum, pending[1..]);
      GainsOnlyEmptyTransitive(store, got.0, rest.0);
      assert forall i :: 0 < i < |pending| ==> pending[i] == pending[1..][i - 1];
      (rest.0, [got.1] + rest.1)
  }

  /** Each view of the walk shows its pending team with the grants that team
      had before the walk. */
  lemma {:induction false} GetTeamsFromViews(store: Store, roster: Roster, curriculum: Curriculum, pending: Roster)
    requires forall i :: 0 <= i < |pending| ==> InRoster(roster, pending[i].name)
    ensures var r := GetTeamsFrom(store, roster, curriculum, pending);
            forall i :: 0 <= i < |pending| ==>
              Shows(r.1[i], pending[i].name, Current(store, pending[i].name), curriculum)
    decreases |pending|
  {
    var r := GetTeamsFrom(store, roster, curriculum, pending);
    if |pending| > 0 {
      var got := GetTeam(store, roster, curriculum, pending[0].name).value;
      var later := pending[1..];
      var rest := GetTeamsFrom(got.0, roster, curriculum, later);
      assert r == (rest.0, [got.1] + rest.1);
      GetTeamsFromViews(got.0, roster, curriculum, later);
      forall i | 0 < i < |pending|
        ensures Shows(r.1[i], pending[i].name, Current(store, pending[i].name), curriculum)
      {
        assert r.1[i] == rest.1[i - 1];
        assert pending[i] == later[i - 1];
        GainsOnlyEmptyKeepsCurrent(store, got.0, pending[i].name);
      }
    }
  }

  /** The views of every roster team, in roster order, each showing the
      grants the team had before the call; every roster team ends up with a
      document and existing documents are kept. */
  function GetTeams(store: Store, roster: Roster, curriculum: Curriculum): (r: (Store, seq<TeamView>))
    ensures |r.1| == |roster|
    ensures forall i :: 0 <= i < |roster| ==>
              Shows(r.1[i], roster[i].name, Current(store, roster[i].name), curriculum)
    ensures forall i :: 0 <= i < |roster| ==> roster[i].name in r.0
    ensures GainsOnlyEmpty(store, r.0)
  {
    assert forall i :: 0 <= i < |roster| ==> InRoster(roster, roster[i].name);
    GetTeamsFromViews(store, roster, curriculum, roster);
    GetTeamsFrom(store, roster, curriculum, roster)
  }
}
