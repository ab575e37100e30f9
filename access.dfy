/** Team access on the deployed stack (index.js:92-105). */
module Access {
  import opened Optional
  import opened Strings
  import opened Api
  import opened Lists

  /** `teams.find(t => t.Name === name.trim())?.Id`. */
  function ResolveTeam(roster: seq<Team>, name: string): (r: Option<nat>)
    ensures r.Some? <==> exists i: nat :: FirstNamed(roster, TeamName, Trim(name), i)
    ensures forall i: nat :: FirstNamed(roster, TeamName, Trim(name), i) ==> r == Some(roster[i].Id)
  {
    match FindNamed(roster, TeamName, Trim(name))
    case None => None
    case Some(i) => Some(roster[i].Id)
  }

  /** The contribution of one name after `.filter(Boolean)`: its team's id,
      unless there is no such team or its id is 0. */
  function Kept(roster: seq<Team>, name: string): (r: seq<nat>)
    ensures |r| <= 1
    ensures forall i: nat :: FirstNamed(roster, TeamName, Trim(name), i) && roster[i].Id != 0 ==> r == [roster[i].Id]
    ensures r != [] ==> r[0] != 0
    ensures forall i: nat :: FirstNamed(roster, TeamName, Trim(name), i) && roster[i].Id == 0 ==> r == []
    ensures (forall j :: 0 <= j < |roster| ==> roster[j].Name != Trim(name)) ==> r == []
  {
    match ResolveTeam(roster, name)
    case Some(id) => if id != 0 then [id] else []
    case None => []
  }

  /** `names.map(name => ...?.Id).filter(Boolean)`: at most one id per
      name, none of them 0. */
  function ResolveAll(roster: seq<Team>, names: seq<string>): (ids: seq<nat>)
    ensures |ids| <= |names|
    ensures forall k :: 0 <= k < |ids| ==> ids[k] != 0
  {
    if |names| == 0 then [] else Kept(roster, names[0]) + ResolveAll(roster, names[1..])
  }

  /** The ids follow the order of the names: resolving a concatenation
      concatenates the results. */
  lemma {:induction false} ResolveAllAppend(roster: seq<Team>, a: seq<string>, b: seq<string>)
    ensures ResolveAll(roster, a + b) == ResolveAll(roster, a) + ResolveAll(roster, b)
  {
    if |a| == 0 {
      assert a + b == b;
    } else {
      assert (a + b)[0] == a[0] && (a + b)[1..] == a[1..] + b;
      ResolveAllAppend(roster, a[1..], b);
      var head := Kept(roster, a[0]);
      assert head + (ResolveAll(roster, a[1..]) + ResolveAll(roster, b))
          == (head + ResolveAll(roster, a[1..])) + ResolveAll(roster, b);
    }
  }

  /** An id is granted exactly when it is not 0 and some name, trimmed,
      resolves to it; names matching no team are dropped. */
  lemma {:induction false} ResolveAllMembership(roster: seq<Team>, names: seq<string>, id: nat)
    ensures id in ResolveAll(roster, names) <==>
              id != 0 && exists k :: 0 <= k < |names| && ResolveTeam(roster, names[k]) == Some(id)
  {
    if |names| > 0 {
      ResolveAllMembership(roster, names[1..], id);
      assert id in Kept(roster, names[0]) <==> id != 0 && ResolveTeam(roster, names[0]) == Some(id);
      if exists k :: 0 <= k < |names[1..]| && ResolveTeam(roster, names[1..][k]) == Some(id) {
        var k :| 0 <= k < |names[1..]| && ResolveTeam(roster, names[1..][k]) == Some(id);
        assert names[k + 1] == names[1..][k];
      }
      if exists k :: 0 <= k < |names| && ResolveTeam(roster, names[k]) == Some(id) {
        var k :| 0 <= k < |names| && ResolveTeam(roster, names[k]) == Some(id);
        if k > 0 { assert names[1..][k - 1] == names[k]; }
      }
    }
  }

  /** The team ids of index.js:96-98 for the `team-names` input. */
  function TeamIds(teamNames: string, roster: seq<Team>): (ids: seq<nat>)
    ensures |ids| <= |Split(teamNames, ',')|
    ensures forall k :: 0 <= k < |ids| ==> ids[k] != 0
  {
    ResolveAll(roster, Split(teamNames, ','))
  }

  /** `existing?.ResourceControl?.Id || data?.ResourceControl?.Id`, `None`
      when falsy: the resource control of the stack found, else the one in
      the body the API answered. */
  function ResourceId(existing: Option<Stack>, data: Stack): (r: Option<nat>)
    ensures r.Some? ==> r.value != 0
    ensures existing.Some? && existing.value.ResourceControl.Some? && existing.value.ResourceControl.value.Id != 0
            ==> r == Some(existing.value.ResourceControl.value.Id)
    ensures r.None? <==>
              (existing.None? || existing.value.ResourceControl.None? || existing.value.ResourceControl.value.Id == 0)
              && (data.ResourceControl.None? || data.ResourceControl.value.Id == 0)
    ensures (existing.None? || existing.value.ResourceControl.None? || existing.value.ResourceControl.value.Id == 0)
            && data.ResourceControl.Some? && data.ResourceControl.value.Id != 0
            ==> r == Some(data.ResourceControl.value.Id)
  {
    if existing.Some? && existing.value.ResourceControl.Some? && existing.value.ResourceControl.value.Id != 0 then
      Some(existing.value.ResourceControl.value.Id)
    else if data.ResourceControl.Some? && data.ResourceControl.value.Id != 0 then
      Some(data.ResourceControl.value.Id)
    else None
  }

  /** The resource-control update of index.js:100-105, if one is sent: only
      for resolved ids, and then granting exactly those teams, neither
      publicly nor to administrators only. */
  function GrantRequest(resourceId: nat, ids: seq<nat>): (r: Option<Request>)
    ensures r.Some? <==> |ids| > 0
    ensures r.Some? ==> r.value == UpdateResourceControl(resourceId, Grant(ids, false, false))
  {
    if |ids| > 0 then Some(UpdateResourceControl(resourceId, Grant(ids, false, false))) else None
  }

  /** The grant is a PUT to `/resource_controls/{resourceId}`. */
  lemma GrantRoute(resourceId: nat, grant: Grant)
    ensures UpdateResourceControl(resourceId, grant).Verb() == PUT
    ensures UpdateResourceControl(resourceId, grant).Path() == "/resource_controls/" + Decimal(resourceId)
  {
  }
}
