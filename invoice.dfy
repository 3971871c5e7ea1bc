/**
 * invoice.tsx, the invoice page's team names. The page folds the loaded
 * teams into an id-to-name dictionary, finds the team of the invoiced
 * project, and labels every project with its team's name. A value that
 * JavaScript leaves `undefined` (a missing dictionary key, a project not
 * found) is `None` here.
 */
module Invoice {
  import opened Wrappers

  datatype Team = Team(id: string, name: string)
  datatype Project = Project(id: string, name: string, teamId: string)
  /** A project spread into a new object with its team's name added. */
  datatype LabelledProject = LabelledProject(id: string, name: string, teamId: string, teamName: Option<string>)

  const UnknownTeam := "Unknown Team"

  /** The name the dictionary keeps for `id`: that of the last team with that id. */
  predicate LastNameFor(teams: seq<Team>, id: string, name: string)
  {
    exists k :: 0 <= k < |teams| && teams[k] == Team(id, name)
      && forall j :: k < j < |teams| ==> teams[j].id != id
  }

  /**
   * The `reduce` that builds `teamIdToNameMap`: every team writes its name
   * under its id, so a repeated id keeps the later team's name.
   */
  method TeamIdToNameMap(teams: seq<Team>) returns (acc: map<string, string>)
    ensures forall id :: id in acc <==> exists t :: t in teams && t.id == id
    ensures forall id :: id in acc ==> LastNameFor(teams, id, acc[id])
  {
    acc := map[];
    var i := 0;
    while i < |teams|
      invariant 0 <= i <= |teams|
      invariant forall id :: id in acc <==> exists t :: t in teams[..i] && t.id == id
      invariant forall id :: id in acc ==> LastNameFor(teams[..i], id, acc[id])
    {
      var team := teams[i];
      assert teams[..i + 1] == teams[..i] + [team];
      forall id | id in acc && id != team.id
        ensures LastNameFor(teams[..i + 1], id, acc[id])
      {
        var k :| 0 <= k < i && teams[..i][k] == Team(id, acc[id])
          && forall j :: k < j < i ==> teams[..i][j].id != id;
        assert teams[..i + 1][k] == Team(id, acc[id]);
      }
      assert teams[..i + 1][i] == Team(team.id, team.name);
      acc := acc[team.id := team.name];
      i := i + 1;
    }
    assert teams[..i] == teams;
  }

  /** `teamsData?.getAllSimpleTeams.reduce(...)`: no dictionary until the teams have loaded. */
  method TeamDictionary(teamsData: Option<seq<Team>>) returns (dict: Option<map<string, string>>)
    ensures dict.None? <==> teamsData.None?
    ensures dict.Some? ==> forall id :: id in dict.value <==> exists t :: t in teamsData.value && t.id == id
    ensures dict.Some? ==> forall id :: id in dict.value ==> LastNameFor(teamsData.value, id, dict.value[id])
  {
    if teamsData.None? {
      return None;
    }
    var acc := TeamIdToNameMap(teamsData.value);
    dict := Some(acc);
  }

  /**
   * `projectTeamName`: the team id of the first project whose id is the
   * invoice's project id; nothing when no project matches, when the
   * projects have not loaded, or when there is no invoice yet (then the
   * id compared against is `undefined`, which no string id equals).
   */
  function FindTeamId(projects: seq<Project>, projectId: string): (r: Option<string>)
    ensures r.None? <==> forall p :: p in projects ==> p.id != projectId
    ensures r.Some? ==> exists k :: (0 <= k < |projects| && projects[k].id == projectId
      && projects[k].teamId == r.value && forall j :: 0 <= j < k ==> projects[j].id != projectId)
  {
    if projects == [] then None
    else if projects[0].id == projectId then Some(projects[0].teamId)
    else
      var r := FindTeamId(projects[1..], projectId);
      assert forall j :: 1 <= j < |projects| ==> projects[1..][j - 1] == projects[j];
      r
  }

  /**
   * The team id of the invoice's project. A missing invoice makes the
   * search compare `undefined`, which no string id equals, so it finds
   * nothing, as missing projects do; the meaning is in `FindTeamId`.
   */
  function ProjectTeamName(projectsData: Option<seq<Project>>, invoiceProjectId: Option<string>): (r: Option<string>)
    ensures projectsData.None? || invoiceProjectId.None? ==> r.None?
    ensures projectsData.Some? && invoiceProjectId.Some? ==> r == FindTeamId(projectsData.value, invoiceProjectId.value)
  {
    if projectsData.None? || invoiceProjectId.None? then None
    else FindTeamId(projectsData.value, invoiceProjectId.value)
  }

  /**
   * Reading the dictionary at a team id: "Unknown Team" only when there is
   * no dictionary; a dictionary without the key gives `undefined`. An
   * `undefined` key is looked up as the string "undefined".
   */
  function TeamNameOf(dict: Option<map<string, string>>, teamId: Option<string>): (name: Option<string>)
    ensures dict.None? ==> name == Some(UnknownTeam)
    ensures dict.Some? ==> (name.Some? <==> teamId.GetOr("undefined") in dict.value)
    ensures dict.Some? && name.Some? ==> name.value == dict.value[teamId.GetOr("undefined")]
  {
    if dict.None? then Some(UnknownTeam)
    else
      var key := teamId.GetOr("undefined");
      if key in dict.value then Some(dict.value[key]) else None
  }

  /** `projectsWithTeamNames`: every project, in order, labelled with its team's name. */
  function ProjectsWithTeamNames(projects: seq<Project>, dict: Option<map<string, string>>): (r: seq<LabelledProject>)
    ensures |r| == |projects|
    ensures forall i :: 0 <= i < |projects| ==>
      && r[i].id == projects[i].id && r[i].name == projects[i].name && r[i].teamId == projects[i].teamId
      && r[i].teamName == TeamNameOf(dict, Some(projects[i].teamId))
  {
    if projects == [] then []
    else
      var p := projects[0];
      [LabelledProject(p.id, p.name, p.teamId, TeamNameOf(dict, Some(p.teamId)))]
        + ProjectsWithTeamNames(projects[1..], dict)
  }

  /**
   * Once the teams have loaded, a project is labelled with a name exactly
   * when some team has its team id, and that name is the last such team's.
   */
  lemma LabelIsLastTeamName(teams: seq<Team>, dict: map<string, string>, projects: seq<Project>, i: int)
    requires forall id :: id in dict <==> exists t :: t in teams && t.id == id
    requires forall id :: id in dict ==> LastNameFor(teams, id, dict[id])
    requires 0 <= i < |projects|
    ensures var shown := ProjectsWithTeamNames(projects, Some(dict))[i].teamName;
      && (shown.Some? <==> exists t :: t in teams && t.id == projects[i].teamId)
      && (shown.Some? ==> LastNameFor(teams, projects[i].teamId, shown.value))
  {
  }

  /** The team a name is shown for is unaffected by teams with other ids. */
  lemma LastNameIgnoresOtherTeams(teams: seq<Team>, other: Team, id: string, name: string)
    requires other.id != id
    requires LastNameFor(teams, id, name)
    ensures LastNameFor(teams + [other], id, name)
  {
    var k :| 0 <= k < |teams| && teams[k] == Team(id, name) && forall j :: k < j < |teams| ==> teams[j].id != id;
    assert (teams + [other])[k] == Team(id, name);
  }

  /** A team listed after every other team with its id is the one whose name is kept. */
  lemma LaterTeamWins(teams: seq<Team>, t: Team)
    ensures LastNameFor(teams + [t], t.id, t.name)
  {
    assert (teams + [t])[|teams|] == Team(t.id, t.name);
  }

  /** At most one name is the last one for an id. */
  lemma LastNameUnique(teams: seq<Team>, id: string, a: string, b: string)
    requires LastNameFor(teams, id, a) && LastNameFor(teams, id, b)
    ensures a == b
  {
    var k :| 0 <= k < |teams| && teams[k] == Team(id, a) && forall j :: k < j < |teams| ==> teams[j].id != id;
    var m :| 0 <= m < |teams| && teams[m] == Team(id, b) && forall j :: m < j < |teams| ==> teams[j].id != id;
  }

  /**
   * The invoice query is skipped, and the effects do not refetch, unless a
   * project, a start date and an end date are all chosen.
   */
  predicate InvoiceQuerySkipped(selectedProject: string, startDate: string, endDate: string)
  {
    selectedProject == "" || startDate == "" || endDate == ""
  }

  predicate RefetchOnChange(selectedProject: string, startDate: string, endDate: string)
  {
    selectedProject != "" && startDate != "" && endDate != ""
  }

  /** The effects refetch exactly when the query is not skipped. */
  lemma RefetchIffNotSkipped(selectedProject: string, startDate: string, endDate: string)
    ensures RefetchOnChange(selectedProject, startDate, endDate) <==> !InvoiceQuerySkipped(selectedProject, startDate, endDate)
  {
  }
}
