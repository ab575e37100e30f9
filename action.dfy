/** One run of the action (`run()`, index.js:6-121): every answer from the
    API and the compose-file read is a parameter, and the run yields the
    requests it sends, in order, and its outcome. */
module Action {
  import opened Optional
  import opened Dicts
  import opened StackVars
  import opened Api
  import opened Resolver
  import opened Dispatch
  import opened Access

  /** The action's inputs once read; `secrets` is the already parsed
      `vault-secrets` object. */
  datatype Inputs = Inputs(
    username: string,
    password: string,
    endpoint: string,
    stackName: string,
    stackVars: string,
    prune: bool,
    pullImage: bool,
    teamNames: string,
    secrets: Dict)

  /** An API call that answered with a body, or was rejected with an error
      message and possibly the response body it carried. */
  datatype Reply<T> = Ok(body: T) | Rejected(message: string, responseBody: Option<string>)

  /** The outcome of reading the compose file. */
  datatype FileRead = Content(text: string) | Unreadable(message: string)

  /** What the outside world answers, one field per awaited call. */
  datatype World = World(
    auth: Reply<()>,
    swarm: Reply<Swarm>,
    stacks: Reply<seq<Stack>>,
    compose: FileRead,
    deploy: Reply<Stack>,
    teams: Reply<seq<Team>>,
    grant: Reply<()>)

  /** The two outputs on success; on failure the `setFailed` message and
      the API response body logged beside it, if any. */
  datatype Outcome =
    | Deployed(stackId: nat, status: string)
    | Failed(message: string, apiResponse: Option<string>)

  datatype Run = Run(requests: seq<Request>, outcome: Outcome)

  /** The requests one step of the run sent, and whether it failed. */
  datatype Stage = Stage(sent: seq<Request>, status: Reply<()>)

  const FailurePrefix := "Deployment failed: "

  /** The `catch` block: the run stops after `sent`, with the error's
      message behind "Deployment failed: ". */
  function Fail(sent: seq<Request>, message: string, body: Option<string>): (r: Run)
    ensures r.requests == sent && r.outcome.Failed?
    ensures |r.outcome.message| >= |FailurePrefix|
    ensures r.outcome.message[..|FailurePrefix|] == FailurePrefix
    ensures r.outcome.message[|FailurePrefix|..] == message
  {
    Run(sent, Failed(FailurePrefix + message, body))
  }

  /** The environment sent with the deployment (index.js:66-68): the parsed
      variables and the secrets, never a name twice. */
  function EnvOf(inp: Inputs): (env: Dict)
    ensures Keys(env) == Keys(ParsedVars(inp.stackVars)) + Keys(inp.secrets)
    ensures UniqueNames(env)
  {
    MergeUnique(inp.stackVars, inp.secrets);
    MergeEnv(ParsedVars(inp.stackVars), inp.secrets)
  }

  /** The authentication request and the two reads sent together after it. */
  function Reads(inp: Inputs): seq<Request> {
    [Authenticate(inp.username, inp.password), GetSwarm(inp.endpoint), ListStacks]
  }

  /** Authentication, both reads and the swarm id succeeded and the compose
      file was read: the deployment request is sent. */
  predicate ReachesDeploy(inp: Inputs, w: World) {
    && w.auth.Ok?
    && w.swarm.Ok?
    && w.stacks.Ok?
    && SwarmId(w.swarm.body).Some?
    && w.compose.Content?
  }

  function ExistingOf(inp: Inputs, w: World): Option<Stack>
    requires w.stacks.Ok?
  {
    Existing(w.stacks.body, inp.stackName)
  }

  /** The deployment request of a run that reaches it. */
  function DeployOf(inp: Inputs, w: World): Request
    requires ReachesDeploy(inp, w)
  {
    DeployRequest(ExistingOf(inp, w), inp.endpoint, inp.stackName, SwarmId(w.swarm.body).value,
                  w.compose.text, EnvOf(inp), inp.prune, inp.pullImage)
  }

  /** The run, step by step, inside its `try`/`catch` (index.js:31-116):
      it always starts with the authentication, sends at most six requests,
      and a failure carries the "Deployment failed: " prefix. */
  function Plan(inp: Inputs, w: World): (r: Run)
    ensures |r.requests| >= 1 && r.requests[0] == Authenticate(inp.username, inp.password)
    ensures |r.requests| <= 6
    ensures r.outcome.Failed? ==>
              |r.outcome.message| >= |FailurePrefix| && r.outcome.message[..|FailurePrefix|] == FailurePrefix
  {
    if w.auth.Rejected? then
      Fail([Authenticate(inp.username, inp.password)], w.auth.message, w.auth.responseBody)
    else if w.swarm.Rejected? then Fail(Reads(inp), w.swarm.message, w.swarm.responseBody)
    else if w.stacks.Rejected? then Fail(Reads(inp), w.stacks.message, w.stacks.responseBody)
    else if SwarmId(w.swarm.body).None? then Fail(Reads(inp), "Failed to get Swarm ID", None)
    else if w.compose.Unreadable? then Fail(Reads(inp), w.compose.message, None)
    else if w.deploy.Rejected? then
      Fail(Reads(inp) + [DeployOf(inp, w)], w.deploy.message, w.deploy.responseBody)
    else AfterDeploy(inp, w)
  }

  /** The outputs of a successful deployment. */
  function Done(inp: Inputs, w: World): (r: Outcome)
    requires ReachesDeploy(inp, w) && w.deploy.Ok?
    ensures r.Deployed?
    ensures ExistingOf(inp, w).Some? && ExistingOf(inp, w).value.Id != 0 ==> r.stackId == ExistingOf(inp, w).value.Id
    ensures ExistingOf(inp, w).None? || ExistingOf(inp, w).value.Id == 0 ==> r.stackId == w.deploy.body.Id
    ensures r.status == "updated" <==> ExistingOf(inp, w).Some?
  {
    Deployed(StackIdOf(ExistingOf(inp, w), w.deploy.body), Status(ExistingOf(inp, w)))
  }

  /** index.js:92-105: with team names given and a resource control
      known, read the roster and, when some name resolves, send the
      resource-control update. */
  function TeamStep(inp: Inputs, w: World): (r: Stage)
    requires ReachesDeploy(inp, w) && w.deploy.Ok?
    ensures |r.sent| <= 2
    ensures r.status.Rejected? ==>
              || (|r.sent| == 1 && w.teams.Rejected? && r.status.message == w.teams.message)
              || (|r.sent| == 2 && w.grant.Rejected? && r.status == w.grant)
  {
    if inp.teamNames == "" then Stage([], Ok(()))
    else
      match ResourceId(ExistingOf(inp, w), w.deploy.body)
      case None => Stage([], Ok(()))
      case Some(resourceId) =>
        if w.teams.Rejected? then Stage([ListTeams], Rejected(w.teams.message, w.teams.responseBody))
        else
          match GrantRequest(resourceId, TeamIds(inp.teamNames, w.teams.body))
          case None => Stage([ListTeams], Ok(()))
          case Some(grant) => Stage([ListTeams, grant], if w.grant.Rejected? then w.grant else Ok(()))
  }

  /** The run after a successful deployment: the team step, inside the same
      `try` block. */
  function AfterDeploy(inp: Inputs, w: World): (r: Run)
    requires ReachesDeploy(inp, w) && w.deploy.Ok?
    ensures 4 <= |r.requests| <= 6 && r.requests[..4] == Reads(inp) + [DeployOf(inp, w)]
    ensures r.outcome.Deployed? <==> TeamStep(inp, w).status.Ok?
    ensures r.outcome.Deployed? ==> r.outcome == Done(inp, w)
  {
    var team := TeamStep(inp, w);
    var sent := Reads(inp) + [DeployOf(inp, w)] + team.sent;
    match team.status
    case Rejected(message, body) => Fail(sent, message, body)
    case Ok(_) => Run(sent, Done(inp, w))
  }

  /** The requests the team step of a run sent (none when it did not
      deploy). */
  function TeamSent(inp: Inputs, w: World): seq<Request>
    requires ReachesDeploy(inp, w)
  {
    if w.deploy.Ok? then TeamStep(inp, w).sent else []
  }

  /** The deployment succeeded and the team step has something to grant
      on: names were given and a resource control is known. */
  predicate ReachesTeams(inp: Inputs, w: World) {
    && ReachesDeploy(inp, w)
    && w.deploy.Ok?
    && inp.teamNames != ""
    && ResourceId(ExistingOf(inp, w), w.deploy.body).Some?
  }

  // ---- Properties of a run ----

  /** A rejected authentication ends the run before any other request. */
  lemma AuthFailureStopsEverything(inp: Inputs, w: World)
    requires w.auth.Rejected?
    ensures Plan(inp, w).requests == [Authenticate(inp.username, inp.password)]
    ensures Plan(inp, w).outcome == Failed(FailurePrefix + w.auth.message, w.auth.responseBody)
  {
  }

  /** Without a usable swarm id the run fails with "Failed to get Swarm ID"
      and sends no deployment. */
  lemma MissingSwarmIdStopsDeploy(inp: Inputs, w: World)
    requires w.auth.Ok? && w.swarm.Ok? && w.stacks.Ok?
    requires !Truthy(w.swarm.body.ID) && !Truthy(w.swarm.body.Id)
    ensures Plan(inp, w).outcome == Failed(FailurePrefix + "Failed to get Swarm ID", None)
    ensures Plan(inp, w).requests == Reads(inp)
    ensures forall r :: r in Plan(inp, w).requests ==> !r.IsDeploy()
  {
    assert SwarmId(w.swarm.body).None?;
    assert Plan(inp, w) == Fail(Reads(inp), "Failed to get Swarm ID", None);
  }

  /** The team step reads the roster exactly when it has names and a
      resource control to grant on, and sends the update exactly when some
      name resolved: then to that resource control, for exactly the
      resolved teams, neither publicly nor to administrators only. */
  lemma TeamStepRequests(inp: Inputs, w: World)
    requires ReachesDeploy(inp, w) && w.deploy.Ok?
    ensures |TeamStep(inp, w).sent| <= 2
    ensures TeamStep(inp, w).sent == [] <==> !ReachesTeams(inp, w)
    ensures ReachesTeams(inp, w) ==> TeamStep(inp, w).sent[0] == ListTeams
    ensures |TeamStep(inp, w).sent| == 2 <==>
              ReachesTeams(inp, w) && w.teams.Ok? && |TeamIds(inp.teamNames, w.teams.body)| > 0
    ensures |TeamStep(inp, w).sent| == 2 ==>
              TeamStep(inp, w).sent[1] ==
                UpdateResourceControl(ResourceId(ExistingOf(inp, w), w.deploy.body).value,
                                      Grant(TeamIds(inp.teamNames, w.teams.body), false, false))
  {
  }

  /** A run that reaches the deployment sends the three requests of the
      start, then the deployment, then whatever the team step sent. */
  lemma RequestsAfterDeploy(inp: Inputs, w: World)
    requires ReachesDeploy(inp, w)
    ensures Plan(inp, w).requests == Reads(inp) + [DeployOf(inp, w)] + TeamSent(inp, w)
  {
  }

  /** Once the deployment succeeds, the rest of the run is the team step. */
  lemma PlanAfterDeploy(inp: Inputs, w: World)
    requires ReachesDeploy(inp, w) && w.deploy.Ok?
    ensures Plan(inp, w) == AfterDeploy(inp, w)
  {
  }

  /** With some team resolved and every call answered, the team step reads
      the roster, sends the update and succeeds. */
  lemma GrantStep(inp: Inputs, w: World)
    requires ReachesTeams(inp, w) && w.teams.Ok? && w.grant.Ok?
    requires |TeamIds(inp.teamNames, w.teams.body)| > 0
    ensures TeamStep(inp, w) ==
      Stage([ListTeams, UpdateResourceControl(ResourceId(ExistingOf(inp, w), w.deploy.body).value,
                                              Grant(TeamIds(inp.teamNames, w.teams.body), false, false))],
            Ok(()))
  {
  }

  /** A team step that succeeds ends the run with the deployed stack. */
  lemma AfterDeployOk(inp: Inputs, w: World)
    requires ReachesDeploy(inp, w) && w.deploy.Ok? && TeamStep(inp, w).status.Ok?
    ensures AfterDeploy(inp, w) == Run(Reads(inp) + [DeployOf(inp, w)] + TeamStep(inp, w).sent, Done(inp, w))
  {
  }

  /** A run whose every call succeeds and which resolves some team sends
      the three requests of the start, the deployment, the roster read and
      the grant, and reports the deployed stack. */
  lemma GrantedRun(inp: Inputs, w: World)
    requires ReachesTeams(inp, w) && w.teams.Ok? && w.grant.Ok?
    requires |TeamIds(inp.teamNames, w.teams.body)| > 0
    ensures Plan(inp, w) ==
      Run(Reads(inp) + [DeployOf(inp, w), ListTeams,
                        UpdateResourceControl(ResourceId(ExistingOf(inp, w), w.deploy.body).value,
                                              Grant(TeamIds(inp.teamNames, w.teams.body), false, false))],
          Done(inp, w))
  {
    PlanAfterDeploy(inp, w);
    GrantStep(inp, w);
    AfterDeployOk(inp, w);
    var grant := UpdateResourceControl(ResourceId(ExistingOf(inp, w), w.deploy.body).value,
                                       Grant(TeamIds(inp.teamNames, w.teams.body), false, false));
    var sent := Reads(inp) + [DeployOf(inp, w)];
    assert sent + [ListTeams, grant] == Reads(inp) + [DeployOf(inp, w), ListTeams, grant];
  }

  /** A run that stops before the deployment sends at most the three
      requests of the start. */
  lemma RequestsBeforeDeploy(inp: Inputs, w: World)
    requires !ReachesDeploy(inp, w)
    ensures Plan(inp, w).requests == [Authenticate(inp.username, inp.password)]
         || Plan(inp, w).requests == Reads(inp)
  {
  }

  /** After the deployment the team step sends only the roster read and
      the resource-control update. */
  lemma TeamSentKinds(inp: Inputs, w: World)
    requires ReachesDeploy(inp, w)
    ensures forall k :: 0 <= k < |TeamSent(inp, w)| ==>
              TeamSent(inp, w)[k] == ListTeams || TeamSent(inp, w)[k].UpdateResourceControl?
  {
    if w.deploy.Ok? {
      var t := TeamStep(inp, w).sent;
      assert t == [] || t == [ListTeams] || (|t| == 2 && t[0] == ListTeams && t[1].UpdateResourceControl?);
    }
  }

  /** A run that reaches the deployment sends it as its fourth request and
      at no other position. */
  lemma DeployOnlyFourth(inp: Inputs, w: World)
    requires ReachesDeploy(inp, w)
    ensures |Plan(inp, w).requests| > 3 && Plan(inp, w).requests[3] == DeployOf(inp, w)
    ensures forall k :: 0 <= k < |Plan(inp, w).requests| && k != 3 ==> !Plan(inp, w).requests[k].IsDeploy()
  {
    RequestsAfterDeploy(inp, w);
    TeamSentKinds(inp, w);
    DeployOnlyAmong(inp, DeployOf(inp, w), TeamSent(inp, w));
  }

  /** After the start, a request followed only by roster reads and
      resource-control updates is the one deployment, at index 3. */
  lemma DeployOnlyAmong(inp: Inputs, deploy: Request, rest: seq<Request>)
    requires forall k :: 0 <= k < |rest| ==> rest[k] == ListTeams || rest[k].UpdateResourceControl?
    ensures |Reads(inp) + [deploy] + rest| > 3 && (Reads(inp) + [deploy] + rest)[3] == deploy
    ensures forall k :: 0 <= k < |Reads(inp) + [deploy] + rest| && k != 3 ==>
              !(Reads(inp) + [deploy] + rest)[k].IsDeploy()
  {
    var rs := Reads(inp) + [deploy] + rest;
    forall k | 0 <= k < |rs| && k != 3
      ensures !rs[k].IsDeploy()
    {
      if k > 3 {
        assert rs[k] == rest[k - 4];
      }
    }
  }

  /** A run that does not reach the deployment sends none. */
  lemma NoDeployUnlessReached(inp: Inputs, w: World)
    requires !ReachesDeploy(inp, w)
    ensures forall k :: 0 <= k < |Plan(inp, w).requests| ==> !Plan(inp, w).requests[k].IsDeploy()
  {
    RequestsBeforeDeploy(inp, w);
  }

  /** A deployment request is sent exactly when the run reaches it, and
      then only once, as the fourth request. */
  lemma DeploySentIffReached(inp: Inputs, w: World)
    ensures (exists k :: 0 <= k < |Plan(inp, w).requests| && Plan(inp, w).requests[k].IsDeploy())
            <==> ReachesDeploy(inp, w)
    ensures forall k :: 0 <= k < |Plan(inp, w).requests| && Plan(inp, w).requests[k].IsDeploy() ==> k == 3
  {
    if ReachesDeploy(inp, w) {
      DeployOnlyFourth(inp, w);
      assert Plan(inp, w).requests[3].IsDeploy();
    } else {
      NoDeployUnlessReached(inp, w);
    }
  }

  /** When a stack of that name exists the run updates it and never
      creates one; when none exists it creates one with its name, swarm id
      and `fromAppTemplate: false`, and updates nothing. */
  lemma UpdateIffExisting(inp: Inputs, w: World)
    requires ReachesDeploy(inp, w)
    ensures ExistingOf(inp, w).Some? ==>
              && DeployOf(inp, w) == UpdateStack(ExistingOf(inp, w).value.Id, inp.endpoint, DeployOf(inp, w).payload)
              && NoCreateFields(DeployOf(inp, w).payload)
              && forall k :: 0 <= k < |Plan(inp, w).requests| ==> !Plan(inp, w).requests[k].CreateStack?
    ensures ExistingOf(inp, w).None? ==>
              && DeployOf(inp, w) == CreateStack(inp.endpoint, DeployOf(inp, w).payload)
              && DeployOf(inp, w).payload.Name == Some(inp.stackName)
              && DeployOf(inp, w).payload.SwarmID == SwarmId(w.swarm.body)
              && DeployOf(inp, w).payload.fromAppTemplate == Some(false)
              && forall k :: 0 <= k < |Plan(inp, w).requests| ==> !Plan(inp, w).requests[k].UpdateStack?
  {
    DeploySentIffReached(inp, w);
    RequestsAfterDeploy(inp, w);
    if w.deploy.Ok? {
      TeamStepRequests(inp, w);
    }
  }

  /** The environment sent never names a variable twice; each secret
      carries the secret's value, and any other parsed key its parsed
      value. */
  lemma DeployedEnv(inp: Inputs, w: World, k: string)
    requires ReachesDeploy(inp, w)
    requires UniqueNames(inp.secrets)
    ensures UniqueNames(DeployOf(inp, w).payload.Env)
    ensures k in Keys(inp.secrets) ==> Get(DeployOf(inp, w).payload.Env, k) == Get(inp.secrets, k)
    ensures k !in Keys(inp.secrets) ==> Get(DeployOf(inp, w).payload.Env, k) == Get(ParsedVars(inp.stackVars), k)
  {
    MergeUnique(inp.stackVars, inp.secrets);
    MergePrecedence(ParsedVars(inp.stackVars), inp.secrets, k);
  }

  /** A run succeeds exactly when every call it makes succeeds, the swarm
      id is present and the compose file is read; it then reports "updated"
      when a stack of that name existed and "created" otherwise, with the id
      of the stack it deployed. */
  lemma SuccessOutputs(inp: Inputs, w: World)
    ensures Plan(inp, w).outcome.Deployed? <==>
              && ReachesDeploy(inp, w) && w.deploy.Ok?
              && (ReachesTeams(inp, w) ==>
                    w.teams.Ok? && (|TeamIds(inp.teamNames, w.teams.body)| > 0 ==> w.grant.Ok?))
    ensures Plan(inp, w).outcome.Deployed? ==>
              && (Plan(inp, w).outcome.status == "updated" <==> ExistingOf(inp, w).Some?)
              && (Plan(inp, w).outcome.status == "created" <==> ExistingOf(inp, w).None?)
              && Plan(inp, w).outcome.stackId == StackIdOf(ExistingOf(inp, w), w.deploy.body)
  {
  }

  /** Some team resolved: the update is the sixth and last request, right
      after the roster read. */
  lemma GrantWhenResolved(inp: Inputs, w: World)
    requires ReachesTeams(inp, w) && w.teams.Ok? && |TeamIds(inp.teamNames, w.teams.body)| > 0
    ensures |Plan(inp, w).requests| == 6
    ensures Plan(inp, w).requests[4] == ListTeams
    ensures Plan(inp, w).requests[5] ==
              UpdateResourceControl(ResourceId(ExistingOf(inp, w), w.deploy.body).value,
                                    Grant(TeamIds(inp.teamNames, w.teams.body), false, false))
  {
    RequestsAfterDeploy(inp, w);
    TeamStepRequests(inp, w);
  }

  /** The start, a deployment and at most the roster read hold no
      resource-control update. */
  lemma NoGrantAmong(inp: Inputs, deploy: Request, rest: seq<Request>)
    requires deploy.IsDeploy() && (rest == [] || rest == [ListTeams])
    ensures forall k :: 0 <= k < |Reads(inp) + [deploy] + rest| ==>
              !(Reads(inp) + [deploy] + rest)[k].UpdateResourceControl?
  {
    var rs := Reads(inp) + [deploy] + rest;
    forall k | 0 <= k < |rs|
      ensures !rs[k].UpdateResourceControl?
    {
      if k == 3 {
        assert rs[k] == deploy;
      } else if k == 4 {
        assert rs[k] == ListTeams;
      }
    }
  }

  /** Otherwise no resource-control update is sent. */
  lemma NoGrantUnlessResolved(inp: Inputs, w: World)
    requires !(ReachesTeams(inp, w) && w.teams.Ok? && |TeamIds(inp.teamNames, w.teams.body)| > 0)
    ensures forall k :: 0 <= k < |Plan(inp, w).requests| ==> !Plan(inp, w).requests[k].UpdateResourceControl?
  {
    if ReachesDeploy(inp, w) {
      RequestsAfterDeploy(inp, w);
      if w.deploy.Ok? {
        TeamStepRequests(inp, w);
      }
      NoGrantAmong(inp, DeployOf(inp, w), TeamSent(inp, w));
    } else {
      RequestsBeforeDeploy(inp, w);
    }
  }

  /** The resource-control update is sent exactly when team names were
      given, a resource control is known, the roster was fetched and some
      name resolved; it is then the last request, right after the roster
      read, and grants exactly the resolved teams, neither publicly nor to
      administrators only. */
  lemma GrantIffResolved(inp: Inputs, w: World)
    ensures (exists k :: 0 <= k < |Plan(inp, w).requests| && Plan(inp, w).requests[k].UpdateResourceControl?)
            <==> ReachesTeams(inp, w) && w.teams.Ok? && |TeamIds(inp.teamNames, w.teams.body)| > 0
    ensures ReachesTeams(inp, w) && w.teams.Ok? && |TeamIds(inp.teamNames, w.teams.body)| > 0 ==>
              && |Plan(inp, w).requests| == 6
              && Plan(inp, w).requests[4] == ListTeams
              && Plan(inp, w).requests[5] ==
                   UpdateResourceControl(ResourceId(ExistingOf(inp, w), w.deploy.body).value,
                                         Grant(TeamIds(inp.teamNames, w.teams.body), false, false))
  {
    if ReachesTeams(inp, w) && w.teams.Ok? && |TeamIds(inp.teamNames, w.teams.body)| > 0 {
      GrantWhenResolved(inp, w);
      assert Plan(inp, w).requests[5].UpdateResourceControl?;
    } else {
      NoGrantUnlessResolved(inp, w);
    }
  }
}
