/** The management API as the action sees it: the bodies it reads and the
    requests it sends (index.js:33-105). Only the fields the action uses
    are modelled. */
module Api {
  import opened Optional
  import opened Strings
  import opened Dicts

  /** The body of `GET /endpoints/{endpoint}/docker/swarm`; the cluster id
      may come spelt `ID` or `Id`. */
  datatype Swarm = Swarm(ID: Option<string>, Id: Option<string>)

  datatype ResourceControl = ResourceControl(Id: nat)

  /** An element of `GET /stacks`; the body answered to a create or an
      update has the same shape. */
  datatype Stack = Stack(Id: nat, Name: string, ResourceControl: Option<ResourceControl>)

  /** An element of `GET /teams`. */
  datatype Team = Team(Id: nat, Name: string)

  function StackName(s: Stack): string { s.Name }

  function TeamName(t: Team): string { t.Name }

  /** The body of a create or update; the last three fields are present
      only when creating. */
  datatype Payload = Payload(
    StackFileContent: string,
    Env: Dict,
    Prune: bool,
    PullImage: bool,
    Name: Option<string>,
    SwarmID: Option<string>,
    fromAppTemplate: Option<bool>)

  /** The body of a resource-control update. */
  datatype Grant = Grant(Teams: seq<nat>, Public: bool, AdministratorsOnly: bool)

  datatype Verb = GET | POST | PUT

  /** Every request the action can send, relative to `{portainer-url}/api`. */
  datatype Request =
    | Authenticate(username: string, password: string)
    | GetSwarm(endpoint: string)
    | ListStacks
    | CreateStack(endpoint: string, payload: Payload)
    | UpdateStack(stackId: nat, endpoint: string, payload: Payload)
    | ListTeams
    | UpdateResourceControl(resourceId: nat, grant: Grant)
  {
    /** The HTTP method: reads are GETs, the authentication and a creation
        POSTs, and both updates PUTs. */
    function Verb(): (v: Verb)
      ensures v == GET <==> GetSwarm? || ListStacks? || ListTeams?
      ensures v == POST <==> Authenticate? || CreateStack?
      ensures v == PUT <==> UpdateStack? || UpdateResourceControl?
    {
      match this
      case Authenticate(_, _) => POST
      case CreateStack(_, _) => POST
      case UpdateStack(_, _, _) => PUT
      case UpdateResourceControl(_, _) => PUT
      case _ => GET
    }

    function Path(): (p: string)
      ensures |p| >= 1 && p[0] == '/'
    {
      match this
      case Authenticate(_, _) => "/auth"
      case GetSwarm(endpoint) => "/endpoints/" + endpoint + "/docker/swarm"
      case ListStacks => "/stacks"
      case CreateStack(endpoint, _) => "/stacks?type=1&method=string&endpointId=" + endpoint
      case UpdateStack(id, endpoint, _) => "/stacks/" + Decimal(id) + "?endpointId=" + endpoint
      case ListTeams => "/teams"
      case UpdateResourceControl(id, _) => "/resource_controls/" + Decimal(id)
    }

    predicate IsDeploy() {
      CreateStack? || UpdateStack?
    }
  }
}
