/** The create-or-update decision, its payload, and what the run reports
    afterwards (index.js:73-88, 112-113). */
module Dispatch {
  import opened Optional
  import opened Strings
  import opened Dicts
  import opened Api

  /** The payload carries none of the fields that only a creation sends. */
  predicate NoCreateFields(p: Payload) {
    p.Name.None? && p.SwarmID.None? && p.fromAppTemplate.None?
  }

  /** The single create-or-update request. An existing stack is updated in
      place with a PUT to its own id and no create-only fields; otherwise a
      POST creates a file-content swarm stack that names itself, its swarm
      and `fromAppTemplate: false`. Either way the compose text, the
      environment and both flags travel unchanged. */
  function DeployRequest(existing: Option<Stack>, endpoint: string, stackName: string,
                         swarmId: string, compose: string, env: Dict,
                         prune: bool, pullImage: bool): (r: Request)
    ensures r.IsDeploy()
    ensures r.UpdateStack? <==> existing.Some?
    ensures r.payload.StackFileContent == compose && r.payload.Env == env
    ensures r.payload.Prune == prune && r.payload.PullImage == pullImage
    ensures r.endpoint == endpoint
    ensures existing.Some? ==> r.stackId == existing.value.Id && NoCreateFields(r.payload)
    ensures existing.None? ==>
      && r.payload.Name == Some(stackName)
      && r.payload.SwarmID == Some(swarmId)
      && r.payload.fromAppTemplate == Some(false)
  {
    var common := Payload(compose, env, prune, pullImage, None, None, None);
    match existing
    case Some(stack) => UpdateStack(stack.Id, endpoint, common)
    case None =>
      CreateStack(endpoint, common.(Name := Some(stackName), SwarmID := Some(swarmId),
                                    fromAppTemplate := Some(false)))
  }

  /** An update is a PUT to `/stacks/{Id}?endpointId=E`, a creation a POST
      to `/stacks?type=1&method=string&endpointId=E`. */
  lemma DeployRoute(existing: Option<Stack>, endpoint: string, stackName: string,
                    swarmId: string, compose: string, env: Dict, prune: bool, pullImage: bool)
    ensures var r := DeployRequest(existing, endpoint, stackName, swarmId, compose, env, prune, pullImage);
      && (existing.Some? ==>
            r.Verb() == PUT && r.Path() == "/stacks/" + Decimal(existing.value.Id) + "?endpointId=" + endpoint)
      && (existing.None? ==>
            r.Verb() == POST && r.Path() == "/stacks?type=1&method=string&endpointId=" + endpoint)
  {
  }

  /** `existing?.Id || data.Id`: the id of the stack found, unless it is
      missing or 0, else the id in the body the API answered. */
  function StackIdOf(existing: Option<Stack>, data: Stack): (id: nat)
    ensures existing.Some? && existing.value.Id != 0 ==> id == existing.value.Id
    ensures existing.None? || existing.value.Id == 0 ==> id == data.Id
  {
    if existing.Some? && existing.value.Id != 0 then existing.value.Id else data.Id
  }

  /** The `stack-status` output: "updated" exactly when a stack of that
      name was found, "created" otherwise. */
  function Status(existing: Option<Stack>): (s: string)
    ensures s == "updated" <==> existing.Some?
    ensures s == "created" <==> existing.None?
  {
    if existing.Some? then "updated" else "created"
  }
}
