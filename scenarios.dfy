/** Two complete runs, worked through end to end. */
module Scenarios {
  import opened Optional
  import opened Strings
  import opened Dicts
  import opened StackVars
  import opened Lists
  import opened Api
  import opened Access
  import opened Action

  /** No stack named "web" exists, the vars text is empty, the only secret
      is `DB_PASS: x` and no team names are given: the run creates the
      stack with exactly that one variable, reports "created", and sends
      no team request. */
  lemma CreateWithSecretOnly(inp: Inputs, w: World)
    requires inp.stackName == "web" && inp.stackVars == "" && inp.teamNames == ""
    requires inp.secrets == [Entry("DB_PASS", "x")]
    requires w.auth.Ok? && w.swarm == Ok(Swarm(Some("swarm-1"), None)) && w.compose.Content?
    requires w.stacks.Ok? && forall i :: 0 <= i < |w.stacks.body| ==> w.stacks.body[i].Name != "web"
    requires w.deploy.Ok?
    ensures |Plan(inp, w).requests| == 4
    ensures Plan(inp, w).requests[3].CreateStack?
    ensures Plan(inp, w).requests[3].payload.Env == [Entry("DB_PASS", "x")]
    ensures Plan(inp, w).requests[3].payload.SwarmID == Some("swarm-1")
    ensures Plan(inp, w).outcome == Deployed(w.deploy.body.Id, "created")
  {
    assert ExistingOf(inp, w) == None;
    assert EnvOf(inp) == [Entry("DB_PASS", "x")] by {
      assert ParsedVars("") == [];
      assert Spread([], inp.secrets) == Spread(Put([], "DB_PASS", "x"), []);
    }
    RequestsAfterDeploy(inp, w);
    TeamStepRequests(inp, w);
  }

  /** `"ops, qa"` splits at its comma into `"ops"` and `" qa"`. */
  lemma SplitOpsQa()
    ensures Split("ops, qa", ',') == ["ops", " qa"]
  {
    var s := "ops, qa";
    assert s == "ops" + [','] + " qa";
    assert ',' !in "ops" && ',' !in " qa";
    assert Join(["ops", " qa"], ',') == s;
    SplitJoin(["ops", " qa"], ',');
  }

  /** Trimming leaves `"ops"` alone. */
  lemma TrimOps()
    ensures Trim("ops") == "ops"
  {
    assert !IsSpace('o') && !IsSpace('s');
    assert LeadingSpaces("ops") == 0;
    assert TrailingSpaces("ops") == 0;
  }

  /** Trimming `" qa"` drops its leading blank. */
  lemma TrimQa()
    ensures Trim(" qa") == "qa"
  {
    var s := " qa";
    assert IsSpace(s[0]) && s[1..] == "qa";
    assert !IsSpace('q') && !IsSpace('a');
    assert LeadingSpaces("qa") == 0;
    assert LeadingSpaces(s) == 1;
    assert TrailingSpaces("qa") == 0;
  }

  /** "ops" names the roster's only team, so it contributes that team's
      id. */
  lemma OpsResolves()
    ensures Kept([Team(3, "ops")], "ops") == [3]
  {
    TrimOps();
    assert FindNamed([Team(3, "ops")], TeamName, "ops") == Some(0);
  }

  /** " qa", trimmed, names no team of the roster, so it contributes
      nothing. */
  lemma QaUnresolved()
    ensures Kept([Team(3, "ops")], " qa") == []
  {
    var roster := [Team(3, "ops")];
    TrimQa();
    assert "qa" != "ops";
    assert FindNamed(roster[1..], TeamName, "qa") == None;
    assert FindNamed(roster, TeamName, "qa") == None;
  }

  /** Two names resolve to what each contributes, in order. */
  lemma ResolveTwo(roster: seq<Team>, names: seq<string>)
    requires |names| == 2
    ensures ResolveAll(roster, names) == Kept(roster, names[0]) + Kept(roster, names[1])
  {
    assert names[1..][1..] == [];
  }

  /** Against a roster holding only "ops" (id 3), "ops, qa" resolves to
      team 3 alone. */
  lemma TeamsOpsQa(names: string, roster: seq<Team>)
    requires names == "ops, qa" && roster == [Team(3, "ops")]
    ensures TeamIds(names, roster) == [3]
  {
    SplitOpsQa();
    var parts := Split(names, ',');
    ResolveTwo(roster, parts);
    OpsResolves();
    QaUnresolved();
  }

  /** Stack "web" exists with id 7 and resource control 11, the team names
      are "ops, qa" and only "ops" (id 3) is on the roster. */
  predicate OpsQaUpdate(inp: Inputs, w: World) {
    && inp.stackName == "web" && inp.teamNames == "ops, qa"
    && w.auth.Ok? && w.swarm == Ok(Swarm(Some("swarm-1"), None)) && w.compose.Content?
    && w.stacks == Ok([Stack(7, "web", Some(ResourceControl(11)))])
    && w.deploy.Ok? && w.teams == Ok([Team(3, "ops")]) && w.grant.Ok?
  }

  /** In that run stack 7 is the one found, with resource control 11. */
  lemma OpsQaExisting(inp: Inputs, w: World)
    requires OpsQaUpdate(inp, w)
    ensures ReachesDeploy(inp, w)
    ensures ExistingOf(inp, w) == Some(Stack(7, "web", Some(ResourceControl(11))))
  {
    assert FirstNamed(w.stacks.body, StackName, "web", 0);
  }

  /** The run updates stack 7, reads the roster, grants team 3 alone and
      reports stack 7 as "updated". */
  lemma UpdateGrantsResolvedTeamOnly(inp: Inputs, w: World)
    requires OpsQaUpdate(inp, w)
    ensures ReachesDeploy(inp, w) && DeployOf(inp, w) == UpdateStack(7, inp.endpoint, DeployOf(inp, w).payload)
    ensures Plan(inp, w).requests
         == Reads(inp) + [DeployOf(inp, w), ListTeams, UpdateResourceControl(11, Grant([3], false, false))]
    ensures Plan(inp, w).outcome == Deployed(7, "updated")
  {
    OpsQaExisting(inp, w);
    assert ResourceId(ExistingOf(inp, w), w.deploy.body) == Some(11);
    TeamsOpsQa(inp.teamNames, w.teams.body);
    GrantedRun(inp, w);
  }
}
