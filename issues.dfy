/**
 * issues2.tsx, the task board. The page lists the distinct team names as
 * filter buttons, shows either every issue or those of the selected team,
 * and groups the shown issues by workflow state, each group under its
 * state's heading.
 */
module Issues {
  import opened Wrappers

  /** The fields of an issue the grouping and filtering look at, plus what identifies it. */
  datatype Issue = Issue(id: string, title: string, state: string, teamName: string, projectName: string)

  // ---------------------------------------------------------------
  // Distinct values in first-occurrence order
  // ---------------------------------------------------------------

  /** The distinct values of `s`, each where it first occurs. */
  function FirstOccurrences(s: seq<string>): (r: seq<string>)
    ensures forall x :: x in r <==> x in s
  {
    if s == [] then []
    else
      var r := FirstOccurrences(s[..|s| - 1]);
      if s[|s| - 1] in r then r else r + [s[|s| - 1]]
  }

  predicate NoDuplicates(s: seq<string>)
  {
    forall i, j :: 0 <= i < j < |s| ==> s[i] != s[j]
  }

  /** The index of the first occurrence of `x`. */
  function FirstIndexOf(s: seq<string>, x: string): (k: nat)
    requires x in s
    ensures k < |s| && s[k] == x && x !in s[..k]
  {
    if s[0] == x then 0 else 1 + FirstIndexOf(s[1..], x)
  }

  lemma {:induction false} FirstIndexOfAppend(s: seq<string>, y: string, x: string)
    requires x in s
    ensures FirstIndexOf(s + [y], x) == FirstIndexOf(s, x)
  {
    if s[0] != x {
      assert (s + [y])[1..] == s[1..] + [y];
      FirstIndexOfAppend(s[1..], y, x);
    }
  }

  lemma {:induction false} FirstIndexOfNew(s: seq<string>, x: string)
    requires x !in s
    ensures FirstIndexOf(s + [x], x) == |s|
  {
    if s != [] {
      assert (s + [x])[1..] == s[1..] + [x];
      FirstIndexOfNew(s[1..], x);
    }
  }

  /**
   * The distinct values carry no repeats and come in the order of their
   * first occurrences.
   */
  predicate InFirstOccurrenceOrder(s: seq<string>, r: seq<string>)
    requires forall x :: x in r ==> x in s
  {
    forall i, j :: 0 <= i < j < |r| ==> FirstIndexOf(s, r[i]) < FirstIndexOf(s, r[j])
  }

  lemma {:induction false} FirstOccurrencesOrdered(s: seq<string>)
    ensures NoDuplicates(FirstOccurrences(s))
    ensures InFirstOccurrenceOrder(s, FirstOccurrences(s))
  {
    if s != [] {
      var front, x := s[..|s| - 1], s[|s| - 1];
      assert s == front + [x];
      FirstOccurrencesOrdered(front);
      var r0 := FirstOccurrences(front);
      assert InFirstOccurrenceOrder(front, r0);
      forall y | y in r0
        ensures FirstIndexOf(s, y) == FirstIndexOf(front, y)
      {
        FirstIndexOfAppend(front, x, y);
      }
      if x !in r0 {
        FirstIndexOfNew(front, x);
        var r := r0 + [x];
        assert FirstOccurrences(s) == r;
        forall i, j | 0 <= i < j < |r|
          ensures FirstIndexOf(s, r[i]) < FirstIndexOf(s, r[j])
        {
          assert r[i] == r0[i] && r0[i] in front;
          assert FirstIndexOf(s, r[i]) == FirstIndexOf(front, r0[i]);
          if j < |r0| {
            assert r[j] == r0[j];
            assert FirstIndexOf(s, r[j]) == FirstIndexOf(front, r0[j]);
            assert FirstIndexOf(front, r0[i]) < FirstIndexOf(front, r0[j]);
          } else {
            assert r[j] == x;
            assert FirstIndexOf(s, x) == |front|;
            assert FirstIndexOf(front, r0[i]) < |front|;
          }
        }
      }
    }
  }

  // ---------------------------------------------------------------
  // uniqueTeams
  // ---------------------------------------------------------------

  function TeamNames(issues: seq<Issue>): (names: seq<string>)
    ensures |names| == |issues|
    ensures forall i :: 0 <= i < |issues| ==> names[i] == issues[i].teamName
  {
    if issues == [] then [] else TeamNames(issues[..|issues| - 1]) + [issues[|issues| - 1].teamName]
  }

  /**
   * `uniqueTeams`: every issue's team name added to a `Set`, whose
   * iteration order is insertion order, so the result lists each team
   * once, in the order teams first appear.
   */
  method UniqueTeams(data: Option<seq<Issue>>) returns (teams: seq<string>)
    ensures teams == FirstOccurrences(TeamNames(data.GetOr([])))
  {
    var issues := data.GetOr([]);
    var seen: set<string> := {};
    teams := [];
    var i := 0;
    while i < |issues|
      invariant 0 <= i <= |issues|
      invariant teams == FirstOccurrences(TeamNames(issues[..i]))
      invariant seen == set x | x in teams
    {
      var team := issues[i].teamName;
      assert issues[..i + 1][..i] == issues[..i];
      if team !in seen {
        seen := seen + {team};
        teams := teams + [team];
      }
      i := i + 1;
    }
    assert issues[..i] == issues;
  }

  // ---------------------------------------------------------------
  // filteredIssues
  // ---------------------------------------------------------------

  /** `issues.filter((issue) => issue.teamName === team)`. */
  function OfTeam(issues: seq<Issue>, team: string): (r: seq<Issue>)
    ensures |r| <= |issues|
    ensures forall x :: x in r <==> x in issues && x.teamName == team
  {
    if issues == [] then []
    else (if issues[0].teamName == team then [issues[0]] else []) + OfTeam(issues[1..], team)
  }

  /** Filtering keeps the original order: it distributes over concatenation. */
  lemma {:induction false} OfTeamAppend(a: seq<Issue>, b: seq<Issue>, team: string)
    ensures OfTeam(a + b, team) == OfTeam(a, team) + OfTeam(b, team)
  {
    if a == [] {
      assert a + b == b;
    } else {
      assert (a + b)[0] == a[0];
      assert (a + b)[1..] == a[1..] + b;
      OfTeamAppend(a[1..], b, team);
    }
  }

  /** Filtering twice by the same team is filtering once. */
  lemma {:induction false} OfTeamIdempotent(issues: seq<Issue>, team: string)
    ensures OfTeam(OfTeam(issues, team), team) == OfTeam(issues, team)
  {
    if issues != [] {
      OfTeamIdempotent(issues[1..], team);
      var rest := OfTeam(issues[1..], team);
      if issues[0].teamName == team {
        var r := OfTeam(issues, team);
        assert r == [issues[0]] + rest;
        assert r != [] && r[0] == issues[0];
        assert r[1..] == rest;
        assert OfTeam(r, team) == [issues[0]] + OfTeam(rest, team);
      } else {
        assert OfTeam(issues, team) == [] + rest == rest;
      }
    }
  }

  /** `if (selectedTeam)`: a selection counts only when it is a non-empty string. */
  predicate TeamSelected(selectedTeam: Option<string>)
  {
    selectedTeam.Some? && selectedTeam.value != ""
  }

  /**
   * `filteredIssues`: every issue when no team is selected, otherwise the
   * issues of the selected team; no data means no issues.
   */
  function FilteredIssues(data: Option<seq<Issue>>, selectedTeam: Option<string>): (r: seq<Issue>)
    ensures !TeamSelected(selectedTeam) ==> r == data.GetOr([])
    ensures TeamSelected(selectedTeam) ==>
      forall x :: x in r <==> x in data.GetOr([]) && x.teamName == selectedTeam.value
  {
    var issues := data.GetOr([]);
    if TeamSelected(selectedTeam) then OfTeam(issues, selectedTeam.value) else issues
  }

  // ---------------------------------------------------------------
  // groupedIssues
  // ---------------------------------------------------------------

  function States(issues: seq<Issue>): (states: seq<string>)
    ensures |states| == |issues|
    ensures forall i :: 0 <= i < |issues| ==> states[i] == issues[i].state
  {
    if issues == [] then [] else States(issues[..|issues| - 1]) + [issues[|issues| - 1].state]
  }

  /** The issues in `state`, in their original order. */
  function InState(issues: seq<Issue>, state: string): seq<Issue>
  {
    if issues == [] then []
    else
      var last := issues[|issues| - 1];
      InState(issues[..|issues| - 1], state) + (if last.state == state then [last] else [])
  }

  /**
   * `keys` lists the states of `issues` in first-occurrence order and
   * `groups` maps each of them to the issues in that state, in order.
   */
  ghost predicate GroupedBy(issues: seq<Issue>, keys: seq<string>, groups: map<string, seq<Issue>>)
  {
    && keys == FirstOccurrences(States(issues))
    && (forall s :: s in groups <==> s in keys)
    && GroupsExact(issues, groups)
  }

  ghost predicate GroupsExact(issues: seq<Issue>, groups: map<string, seq<Issue>>)
  {
    forall s :: s in groups ==> groups[s] == InState(issues, s) && groups[s] != []
  }

  /**
   * `groupedIssues`: the issues pushed one by one into the group of their
   * state, a group created on first use. `keys` is the order in which
   * `Object.entries` lists the groups: the order they were created.
   */
  method GroupedIssues(issues: seq<Issue>) returns (keys: seq<string>, groups: map<string, seq<Issue>>)
    ensures GroupedBy(issues, keys, groups)
    ensures forall s :: s in groups <==> s in States(issues)
  {
    keys := [];
    groups := map[];
    var i := 0;
    while i < |issues|
      invariant 0 <= i <= |issues|
      invariant GroupedBy(issues[..i], keys, groups)
    {
      var issue := issues[i];
      assert issues[..i + 1] == issues[..i] + [issue];
      GroupAdd(issues[..i], issue, keys, groups);
      var group := if issue.state in groups then groups[issue.state] else [];
      if issue.state !in groups {
        keys := keys + [issue.state];
      }
      groups := groups[issue.state := group + [issue]];
      i := i + 1;
    }
    assert issues[..i] == issues;
  }

  /** Pushing one more issue into its state's group keeps the grouping exact. */
  lemma GroupAdd(issues: seq<Issue>, x: Issue, keys: seq<string>, groups: map<string, seq<Issue>>)
    requires GroupedBy(issues, keys, groups)
    ensures GroupedBy(issues + [x],
      if x.state in groups then keys else keys + [x.state],
      groups[x.state := (if x.state in groups then groups[x.state] else []) + [x]])
  {
    KeysSnoc(issues, x, keys, x.state in groups);
    if x.state !in groups {
      InStateOfMissing(issues, x.state);
    }
    GroupsSnoc(issues, x, groups);
  }

  lemma GroupsSnoc(issues: seq<Issue>, x: Issue, groups: map<string, seq<Issue>>)
    requires GroupsExact(issues, groups)
    requires x.state !in groups ==> InState(issues, x.state) == []
    ensures GroupsExact(issues + [x], groups[x.state := (if x.state in groups then groups[x.state] else []) + [x]])
  {
    var groups' := groups[x.state := (if x.state in groups then groups[x.state] else []) + [x]];
    forall s | s in groups'
      ensures groups'[s] == InState(issues + [x], s) && groups'[s] != []
    {
      InStateSnoc(issues, x, s);
    }
  }

  /** The first-occurrence keys after one more issue: its state is added when it is new. */
  lemma KeysSnoc(issues: seq<Issue>, x: Issue, keys: seq<string>, known: bool)
    requires keys == FirstOccurrences(States(issues))
    requires known <==> x.state in keys
    ensures FirstOccurrences(States(issues + [x])) == if known then keys else keys + [x.state]
  {
    var all := issues + [x];
    assert all[..|all| - 1] == issues;
    var states := States(all);
    assert states == States(issues) + [x.state];
    assert states[..|states| - 1] == States(issues);
  }

  lemma InStateSnoc(issues: seq<Issue>, x: Issue, s: string)
    ensures InState(issues + [x], s) == InState(issues, s) + (if x.state == s then [x] else [])
  {
    assert (issues + [x])[..|issues|] == issues;
  }

  /** No issue is in a state none of them has. */
  lemma {:induction false} InStateOfMissing(issues: seq<Issue>, state: string)
    requires state !in States(issues)
    ensures InState(issues, state) == []
  {
    if issues != [] {
      var front := issues[..|issues| - 1];
      assert States(issues) == States(front) + [issues[|issues| - 1].state];
      InStateOfMissing(front, state);
    }
  }

  /** The total size of the groups listed in `keys`. */
  function GroupSizes(issues: seq<Issue>, keys: seq<string>): nat
  {
    if keys == [] then 0 else GroupSizes(issues, keys[..|keys| - 1]) + |InState(issues, keys[|keys| - 1])|
  }

  function Count(keys: seq<string>, s: string): nat
  {
    if keys == [] then 0 else Count(keys[..|keys| - 1], s) + (if keys[|keys| - 1] == s then 1 else 0)
  }

  lemma {:induction false} GroupSizesAppendIssue(issues: seq<Issue>, x: Issue, keys: seq<string>)
    ensures GroupSizes(issues + [x], keys) == GroupSizes(issues, keys) + Count(keys, x.state)
  {
    if keys != [] {
      GroupSizesAppendIssue(issues, x, keys[..|keys| - 1]);
      assert (issues + [x])[..|issues + [x]| - 1] == issues;
    }
  }

  lemma {:induction false} CountDistinct(keys: seq<string>, s: string)
    requires NoDuplicates(keys)
    ensures s in keys ==> Count(keys, s) == 1
    ensures s !in keys ==> Count(keys, s) == 0
  {
    if keys != [] {
      var front := keys[..|keys| - 1];
      assert keys == front + [keys[|keys| - 1]];
      CountDistinct(front, s);
    }
  }

  /**
   * Over distinct keys that cover every state, the group sizes add up to
   * the number of issues.
   */
  lemma {:induction false} GroupSizesCover(issues: seq<Issue>, keys: seq<string>)
    requires NoDuplicates(keys)
    requires forall x :: x in issues ==> x.state in keys
    ensures GroupSizes(issues, keys) == |issues|
  {
    if issues == [] {
      GroupSizesOfNone(keys);
    } else {
      var front, x := issues[..|issues| - 1], issues[|issues| - 1];
      assert issues == front + [x];
      GroupSizesCover(front, keys);
      GroupSizesAppendIssue(front, x, keys);
      CountDistinct(keys, x.state);
    }
  }

  lemma {:induction false} GroupSizesOfNone(keys: seq<string>)
    ensures GroupSizes([], keys) == 0
  {
    if keys != [] {
      GroupSizesOfNone(keys[..|keys| - 1]);
    }
  }

  /**
   * Every shown issue lands in exactly one group: the groups, taken in
   * their listed order, add up to the shown issues.
   */
  lemma GroupedIssuesPartition(issues: seq<Issue>)
    ensures GroupSizes(issues, FirstOccurrences(States(issues))) == |issues|
  {
    FirstOccurrencesOrdered(States(issues));
    forall x | x in issues
      ensures x.state in States(issues)
    {
      var i :| 0 <= i < |issues| && issues[i] == x;
      assert States(issues)[i] == x.state;
    }
    GroupSizesCover(issues, FirstOccurrences(States(issues)));
  }

  // ---------------------------------------------------------------
  // The group filter of the rendering
  // ---------------------------------------------------------------

  /**
   * The `Object.entries(groupedIssues).filter(...)` of the page: with a
   * team selected, a group is shown when some issue in it is the team's.
   */
  function VisibleGroups(keys: seq<string>, groups: map<string, seq<Issue>>, selectedTeam: Option<string>): (r: seq<string>)
    ensures |r| <= |keys|
    ensures forall k :: k in r ==> k in keys
  {
    if keys == [] then []
    else
      var k := keys[|keys| - 1];
      VisibleGroups(keys[..|keys| - 1], groups, selectedTeam) + (if GroupShown(k, groups, selectedTeam) then [k] else [])
  }

  /** A group is shown when no team is selected or some issue in it is the team's. */
  predicate GroupShown(k: string, groups: map<string, seq<Issue>>, selectedTeam: Option<string>)
  {
    !TeamSelected(selectedTeam) || (k in groups && exists x :: x in groups[k] && x.teamName == selectedTeam.value)
  }

  /** A key is shown exactly when it is one of the keys and its group passes the filter. */
  lemma {:induction false} VisibleGroupsMembers(keys: seq<string>, groups: map<string, seq<Issue>>,
                                                selectedTeam: Option<string>)
    ensures forall k :: k in VisibleGroups(keys, groups, selectedTeam) <==> k in keys && GroupShown(k, groups, selectedTeam)
  {
    if keys != [] {
      var front, last := keys[..|keys| - 1], keys[|keys| - 1];
      VisibleGroupsMembers(front, groups, selectedTeam);
      assert keys == front + [last];
    }
  }

  /** The group filter keeps the keys' order: it distributes over concatenation. */
  lemma {:induction false} VisibleGroupsAppend(a: seq<string>, b: seq<string>, groups: map<string, seq<Issue>>,
                                               selectedTeam: Option<string>)
    ensures VisibleGroups(a + b, groups, selectedTeam)
      == VisibleGroups(a, groups, selectedTeam) + VisibleGroups(b, groups, selectedTeam)
  {
    if b == [] {
      assert a + b == a;
    } else {
      var front := b[..|b| - 1];
      VisibleGroupsAppend(a, front, groups, selectedTeam);
      assert (a + b)[..|a + b| - 1] == a + front;
      assert (a + b)[|a + b| - 1] == b[|b| - 1];
    }
  }

  /**
   * The group filter never hides anything: with a team selected every
   * group already holds only that team's issues and is non-empty.
   */
  lemma {:induction false} VisibleGroupsKeepsAll(data: Option<seq<Issue>>, selectedTeam: Option<string>,
                                                 keys: seq<string>, groups: map<string, seq<Issue>>)
    requires forall k :: k in keys ==> k in groups
    requires forall s :: s in groups ==>
      groups[s] == InState(FilteredIssues(data, selectedTeam), s) && groups[s] != []
    ensures VisibleGroups(keys, groups, selectedTeam) == keys
  {
    if keys != [] {
      VisibleGroupsKeepsAll(data, selectedTeam, keys[..|keys| - 1], groups);
      var k := keys[|keys| - 1];
      GroupOfFilteredShown(data, selectedTeam, k, groups);
      assert keys[..|keys| - 1] + [k] == keys;
    }
  }

  /** A group holds exactly the issues in its state. */
  lemma {:induction false} InStateMembers(issues: seq<Issue>, state: string)
    ensures forall x :: x in InState(issues, state) <==> x in issues && x.state == state
  {
    if issues != [] {
      var front := issues[..|issues| - 1];
      InStateMembers(front, state);
      assert issues == front + [issues[|issues| - 1]];
    }
  }

  lemma GroupOfFilteredShown(data: Option<seq<Issue>>, selectedTeam: Option<string>, k: string,
                             groups: map<string, seq<Issue>>)
    requires k in groups && groups[k] == InState(FilteredIssues(data, selectedTeam), k) && groups[k] != []
    ensures GroupShown(k, groups, selectedTeam)
  {
    if TeamSelected(selectedTeam) {
      var x := groups[k][0];
      InStateMembers(FilteredIssues(data, selectedTeam), k);
      assert x in InState(FilteredIssues(data, selectedTeam), k);
      assert x.teamName == selectedTeam.value;
    }
  }

  /** The page's team filter: the selected team, if any. */
  class Board {
    var selectedTeam: Option<string>

    constructor ()
      ensures selectedTeam == None
    {
      selectedTeam := None;
    }

    /** `handleSelectTeam`. */
    method SelectTeam(team: string)
      modifies this
      ensures selectedTeam == Some(team)
    {
      selectedTeam := Some(team);
    }

    /** `handleClearTeamFilter`: afterwards every issue is shown. */
    method ClearTeamFilter(data: Option<seq<Issue>>)
      modifies this
      ensures selectedTeam == None
      ensures FilteredIssues(data, selectedTeam) == data.GetOr([])
    {
      selectedTeam := None;
    }
  }
}
