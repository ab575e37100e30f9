/** Which cluster to deploy to and whether the stack already exists
    (index.js:44-47). */
module Resolver {
  import opened Optional
  import opened Api
  import opened Lists

  /** JavaScript truthiness of a string field: present and not empty. */
  predicate Truthy(s: Option<string>) {
    s.Some? && s.value != ""
  }

  /** `swarm.ID || swarm.Id`, `None` when the result is falsy and the run
      stops with "Failed to get Swarm ID". The long spelling wins whenever
      it is usable. */
  function SwarmId(swarm: Swarm): (r: Option<string>)
    ensures r.None? <==> !Truthy(swarm.ID) && !Truthy(swarm.Id)
    ensures r.Some? ==> r.value != "" && (r == swarm.ID || r == swarm.Id)
    ensures Truthy(swarm.ID) ==> r == swarm.ID
  {
    if Truthy(swarm.ID) then swarm.ID
    else if Truthy(swarm.Id) then swarm.Id
    else None
  }

  /** `stacks.find(s => s.Name === stackName)`: the first stack with
      exactly that name, if any. */
  function Existing(stacks: seq<Stack>, stackName: string): (r: Option<Stack>)
    ensures r.Some? ==> exists i: nat :: FirstNamed(stacks, StackName, stackName, i) && r.value == stacks[i]
    ensures r.None? <==> forall j :: 0 <= j < |stacks| ==> stacks[j].Name != stackName
  {
    match FindNamed(stacks, StackName, stackName)
    case None => None
    case Some(i) => Some(stacks[i])
  }
}
