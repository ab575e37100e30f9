# Portainer stack deployment, modelled in Dafny

This is a model of the GitHub Action that deploys a Docker Swarm stack
through the Portainer API: `run()` in `index.js`. One run of the action:

1. authenticates;
2. reads the swarm descriptor of the endpoint and the list of stacks;
3. picks the swarm id;
4. looks for a stack of the requested name;
5. parses the `stack-vars` text into variables and lays the
   `vault-secrets` object over them;
6. creates the stack, or updates the one found;
7. grants the listed teams access to the stack's resource control, when
   names were given and a resource control is known;
8. sets the `stack-id` and `stack-status` outputs.

Any rejected call ends the run with the message
`Deployment failed: <error message>`.

The model keeps the decision and transformation logic and turns the I/O
into parameters. A `World` value holds every answer the API gives and the
result of reading the compose file. `Action.Plan(inputs, world)` is a pure
function that returns the requests the run sends, in order, and its
outcome: the two outputs, or the failure message and the response body.

Modules, one file each:

- `Optional`: the `Option` type.
- `Strings`: JavaScript's `split`, `join`, `trim` and decimal rendering,
  over `seq<char>`.
- `Dicts`: a JavaScript object as an ordered list of `{name, value}`
  entries:
  - `Put` defines or overwrites an own property;
  - `Spread` is `{...a, ...b}`;
  - the list order is the order `Object.entries` gives.
- `StackVars`: the `stack-vars` parser and the merge with the secrets.
  The parser's `forEach` loop is the method `AssignLines`. It updates the
  object line by line and is proved equal to the function `Collect`.
  Everything else is proved about `Collect`.
- `Api`: the records the API returns and the requests the action sends,
  with their HTTP verb and path.
- `Lists`: the search for the first record of a given `Name`, shared by
  the stack list and the team roster.
- `Resolver`: the swarm id and the existing stack.
- `Dispatch`: the create or update request, the stack id and the status.
- `Access`: resolving team names and the resource-control update.
- `Action`: the whole run, and the properties of a run.
- `Scenarios`: two runs worked through end to end.

JavaScript truthiness is kept where the code relies on it:

- an empty swarm id counts as missing;
- an id of 0 counts as missing in `existing?.Id || data.Id`,
  `...?.ResourceControl?.Id || ...` and `.filter(Boolean)`.

The quote regex `/^["'](.*)["']$/` is modelled as written. It removes one
character from each end of any value of at least two characters that
begins and ends with `'` or `"`, even when the two quotes differ. For
example, `"a'` becomes `a`. It leaves alone a value with a line terminator
inside, because `.` does not match one. The regex does not require the two
quotes to match, and the model follows it (`StackVars.StripQuotes`).

`parsedVars` is a plain object, so the assignment `parsedVars[key] = value`
for the key `__proto__` runs the inherited `Object.prototype` setter. That
setter ignores a string value, so such a line contributes no variable. The
model skips that key in the parser (`StackVars.ProtoNeverParsed`). A
`__proto__` secret is unaffected: the spread defines it as an own property.

## Model

| member | source | states |
|---|---|---|
| StackVars.ParseVars | index.js:54-64 | the parsed object is exactly `ParsedVars(stackVars)`: empty for an empty text, otherwise the lines' assignments applied in order; no key is listed twice |
| StackVars.ParsedVars | index.js:54-64 | the object parsed from `stack-vars` (its `Lines`, each line's contribution in `Assignments`, folded by `Collect`) never lists a key twice, and is empty for the empty text; `LastAssignmentWins`, `UnassignedKeyAbsent` and `ProtoNeverParsed` state its contents |
| StackVars.AssignLines | index.js:56-63 | the `forEach` loop that assigns `parsedVars[key.trim()] = value` line by line (a `__proto__` key assigns nothing) ends with the object `Collect` specifies |
| StackVars.ParseLine | index.js:57 | a line contributes an entry exactly when it contains `:` or `=` |
| StackVars.SplitAssignment | index.js:59-62 | the key of a line never holds `:`, and holds no `=` either when the line has no `:`, because it is cut before the first separator; `ParseLineAtFirstSeparator` states the key and value outright |
| StackVars.ParseLineAtFirstSeparator | index.js:59-62 | a line holding `:` is split at its first `:` even when `=` also occurs; otherwise it is split at its first `=`; the key is the trimmed text before the separator, and the value is the trimmed, unquoted rest, later separators included |
| StackVars.StripQuotes | index.js:61 | the value changes exactly when it has at least two characters, a quote of either kind at each end and no line terminator inside; it then loses exactly its first and last character |
| StackVars.Collect | index.js:58-62 | the object built from the lines never lists a key twice |
| StackVars.LastAssignmentWins | index.js:58-62 | when several lines assign a key other than `__proto__`, the object holds the value from the last of them |
| StackVars.UnassignedKeyAbsent | index.js:56-62 | a key that no line assigns is absent from the object |
| StackVars.ProtoNeverParsed | index.js:54-62 | a line with the key `__proto__` never yields a variable, because assigning a string to `__proto__` on a plain object creates no property |
| StackVars.NoSeparatorNoVars | index.js:55-57 | text in which no line has `:` or `=`, the empty text included, yields the empty object |
| StackVars.ParsedVarsOfLines | index.js:55 | the `if (stackVars)` guard does not change the result: the empty text is one empty line, which contributes nothing |
| StackVars.CollectLastWins | index.js:58-62 | over the lines' contributions, the last assignment of a key gives its value |
| StackVars.CollectUnassigned | index.js:58-62 | over the lines' contributions, a key nobody assigns is absent |
| StackVars.CollectNothing | index.js:57 | contributions that assign nothing leave the object empty |
| StackVars.MergeEnv | index.js:67-68 | the env holds the keys of both objects, with the parsed keys first and in their own order |
| StackVars.MergePrecedence | index.js:67 | for a key among the secrets, the env carries the secret's value; any other key keeps its parsed value |
| StackVars.MergeUnique | index.js:67-68 | the env sent with the stack never names a variable twice |
| Action.EnvOf | index.js:66-68 | the env of a run names exactly the parsed keys and the secrets' keys, none of them twice; `MergeEnv` states their order and `MergePrecedence` their values |
| Dicts.Get | index.js:67 | a lookup fails exactly for a key not listed, and otherwise returns a value listed under that key |
| Dicts.Put | index.js:62 | after an assignment the key holds the new value, every other key keeps its value, and the key set gains exactly that key |
| Dicts.PutOrder | index.js:62 | assigning an existing key keeps its position; a new key is appended at the end |
| Dicts.PutUnique | index.js:62 | an assignment never introduces a duplicate name |
| Dicts.Spread | index.js:67 | the spread object's keys are the union of both objects' keys |
| Dicts.SpreadOrder | index.js:67-68 | the first object's names keep their positions at the front of the spread object |
| Dicts.SpreadUnique | index.js:67-68 | spreading objects without duplicates gives an object without duplicates |
| Dicts.SpreadGet | index.js:67 | the second object's value wins for its keys; any other key has the first object's value |
| Dicts.KeysAt | index.js:67-68 | a key is in an object exactly when some entry has that name |
| Dicts.UniqueNamesAt | index.js:67-68 | in an object without duplicates, two distinct positions hold distinct names |
| Strings.Split | index.js:56 | `split` yields at least one piece, no piece contains the separator, and joining the pieces gives back the text |
| Strings.SplitJoin | index.js:60-61 | splitting pieces that were joined with a separator they do not contain gives back the pieces |
| Strings.SplitAtFirst | index.js:60-61 | the first piece is the text before the first separator, and re-joining the other pieces gives everything after it |
| Strings.Join | index.js:61 | `join` starts with the first piece, puts the separator right after it when there is a second piece, and gives the empty string for no pieces; `Split` and `SplitJoin` state it as the inverse of `split` |
| Strings.IndexOf | index.js:59-60 | the index found holds the character, and no earlier position does |
| Strings.Trim | index.js:61-62 | the trimmed text starts and ends with no white space, and is a window of the input with only white space outside it |
| Strings.LeadingSpaces | index.js:61-62 | the number of leading characters `trim` removes: all white space, and followed by a character that is not |
| Strings.TrailingSpaces | index.js:61-62 | the number of trailing characters `trim` removes: all white space, and preceded by a character that is not |
| Strings.Decimal | index.js:83 | the rendering of an id in a URL is non-empty, all digits, and starts with `0` only for 0 |
| Strings.Digit | index.js:83 | the digit character for `d` reads back as `d` |
| Strings.DecimalRoundTrip | index.js:83 | the id written into a URL reads back as the same number |
| Api.Request.Path | index.js:33-101 | every request path is absolute: it starts with `/`; `DeployRoute` states the deployment paths outright |
| Api.Request.Verb | index.js:33-101 | the three reads (swarm, stack list, roster) are GETs, the authentication and a creation are POSTs, and the stack and resource-control updates are PUTs |
| Resolver.SwarmId | index.js:44-45 | the swarm id is `ID` when that is non-empty, else `Id`; there is none, and the run must fail, exactly when neither is non-empty |
| Lists.FindNamed | index.js:47 | the index found is that of the first record (stack, or team at index.js:97) with exactly that name; there is none exactly when no record has it |
| Resolver.Existing | index.js:47 | the existing stack is the first stack with exactly the requested name; there is none exactly when no stack has it |
| Dispatch.DeployRequest | index.js:73-86 | the request is an update exactly when a stack was found: then it targets that stack's id and carries no `Name`, `SwarmID` or `fromAppTemplate`; otherwise it is a creation carrying `Name`, `SwarmID` and `fromAppTemplate: false`; both carry the compose content, env, prune and pull-image flags unchanged and the endpoint |
| Dispatch.DeployRoute | index.js:81-84 | an update is a PUT to `/stacks/{Id}?endpointId=E`, and a creation a POST to `/stacks?type=1&method=string&endpointId=E` |
| Dispatch.StackIdOf | index.js:88 | the stack id is the found stack's id unless it is 0, else the id in the deploy response |
| Dispatch.Status | index.js:113 | the status is "updated" exactly when a stack was found, and "created" exactly when none was |
| Access.ResolveTeam | index.js:97 | a name resolves exactly when some team is named as the trimmed name, and then to the first such team's id |
| Access.Kept | index.js:97-98 | a name contributes at most one id, never 0: the id of the first team named as the trimmed name, whenever that id is not 0; nothing when that team's id is 0 or no team has that name |
| Access.ResolveAll | index.js:96-98 | at most one id per name, and none of them 0 |
| Access.ResolveAllAppend | index.js:96-98 | the ids follow the order of the names: resolving concatenated name lists concatenates the id lists |
| Access.ResolveAllMembership | index.js:96-98 | an id is granted exactly when it is not 0 and some trimmed name resolves to it; unmatched names are dropped |
| Access.TeamIds | index.js:96-98 | the team ids for `team-names` are at most one per comma-separated name and never 0; `ResolveAllMembership` states which ids they are |
| Access.ResourceId | index.js:93 | the resource control is the found stack's when it has a non-zero one, otherwise the deploy response's when that one is non-zero; there is none exactly when neither has a non-zero one |
| Access.GrantRequest | index.js:100-105 | an update is sent exactly when some id resolved, and then it grants exactly those teams, with `Public` and `AdministratorsOnly` false |
| Access.GrantRoute | index.js:101 | the grant is a PUT to `/resource_controls/{resourceId}` |
| Action.Fail | index.js:115-116 | a failure ends the run after the requests already sent, with the message `Deployment failed: ` followed by the error's message |
| Action.Plan | index.js:31-116 | every run starts with the authentication request and sends at most six requests; a failed run's message starts with `Deployment failed: `; the lemmas below state each path |
| Action.AfterDeploy | index.js:88-113 | after a successful deployment the first four requests are the authentication, the two reads and the deployment, at most two follow, and the run succeeds with the deployed stack's outputs exactly when the team step does |
| Action.TeamStep | index.js:92-109 | the team step sends at most two requests; it fails only with a rejected roster read after sending that one request, or with a rejected update after sending both |
| Action.AfterDeployOk | index.js:88-113 | a team step that succeeds ends the run with the requests sent so far and the deployed stack's outputs |
| Action.Done | index.js:88-113 | a successful run outputs the found stack's id unless it is 0, else the id in the deploy response, and the status "updated" exactly when a stack was found |
| Action.AuthFailureStopsEverything | index.js:31-33 | a rejected authentication fails the run before any other request |
| Action.MissingSwarmIdStopsDeploy | index.js:44-45 | without a non-empty swarm id the run fails with "Failed to get Swarm ID" and sends no deployment |
| Action.RequestsBeforeDeploy | index.js:33-51 | a run that stops before deploying sends only the authentication, or the authentication and the two reads |
| Action.RequestsAfterDeploy | index.js:33-105 | a run that reaches the deployment sends the authentication and the two reads (`Reads`), the deployment (`DeployOf`), and then the team step's requests |
| Action.DeploySentIffReached | index.js:33-86 | a deployment is sent exactly when authentication, both reads and the swarm id succeed and the compose file is read, and then only once, as the fourth request |
| Action.DeployOnlyFourth | index.js:33-105 | a run that reaches the deployment sends it as the fourth request and at no other position |
| Action.NoDeployUnlessReached | index.js:33-51 | a run that fails before the deployment sends none |
| Action.TeamSentKinds | index.js:92-105 | the team step sends only the roster read and the resource-control update |
| Action.PlanAfterDeploy | index.js:88-113 | once the deployment succeeds, the rest of the run is the team step and the outputs |
| Action.GrantStep | index.js:92-105 | with some team resolved and every call answered, the team step reads the roster, grants exactly the resolved teams on the known resource control, and succeeds |
| Action.GrantWhenResolved | index.js:92-105 | when some team resolved, the update is the sixth and last request, right after the roster read, for exactly those teams |
| Action.NoGrantUnlessResolved | index.js:92-100 | without names, a resource control, a roster or a resolved name, no resource-control update is sent |
| Action.UpdateIffExisting | index.js:47-86 | with a stack of that name the run updates it and never creates one; without one it creates a stack with its name, swarm id and `fromAppTemplate: false`, and updates nothing |
| Action.DeployedEnv | index.js:66-75 | the env sent never names a variable twice; secrets win, and other keys carry their parsed values |
| Action.SuccessOutputs | index.js:88-113 | a run succeeds exactly when every call it makes succeeds, the swarm id is present and the compose file is read; it then outputs the deployed stack's id, and the status "updated" exactly when a stack was found |
| Action.TeamStepRequests | index.js:92-105 | the team step reads the roster exactly when names were given and a resource control is known; it sends the update exactly when some name resolved, for exactly the resolved teams |
| Action.GrantIffResolved | index.js:92-105 | the resource-control update is sent exactly when names were given, a resource control is known, the roster was read and some name resolved; it is then the sixth and last request, right after the roster read |
| Action.GrantedRun | index.js:33-113 | a run in which every call succeeds and some team resolves sends the six requests in order and reports the deployed stack |
| Scenarios.CreateWithSecretOnly | index.js:47-113 | no stack "web", an empty vars text and the single secret `DB_PASS: x`: the stack is created with exactly that variable, reported "created", and no team request is sent |
| Scenarios.UpdateGrantsResolvedTeamOnly | index.js:47-113 | stack "web" with id 7, names "ops, qa" and only "ops" on the roster: stack 7 is updated and team 3 alone is granted |
| Scenarios.TeamsOpsQa | index.js:96-98 | "ops, qa" against a roster holding only "ops" resolves to that team's id alone |
| Scenarios.SplitOpsQa | index.js:96 | "ops, qa" splits at its comma into "ops" and " qa" |
| Scenarios.OpsResolves | index.js:97-98 | "ops" contributes the id of the roster's team "ops" |
| Scenarios.QaUnresolved | index.js:97-98 | " qa" matches no team of a roster holding only "ops" and contributes nothing |
| Scenarios.ResolveTwo | index.js:96-98 | two names resolve to the first one's id, if kept, followed by the second one's |
| Scenarios.TrimOps | index.js:97 | trimming leaves "ops" unchanged |
| Scenarios.TrimQa | index.js:97 | trimming " qa" gives "qa" |
| Scenarios.OpsQaExisting | index.js:47 | in the "ops, qa" run, stack 7 is the stack found |

## Left out

- Reading the inputs (`core.getInput`, `getBooleanInput`) is left out: the inputs are one record. The `portainer-url`, `stack-file` and `disable-proxy` inputs are not modelled, since they only reach the HTTP client and the file read.
- The `vault-secrets` input arrives as an already parsed object of strings. `JSON.parse`, its errors and non-string secret values are not modelled.
- The HTTP client is not modelled: its base URL, TLS agent and proxy setting, and the bearer token header. Requests are values, and every answer is a parameter of the run. The token itself is not modelled.
- The two reads run concurrently under `Promise.all`, and either may be rejected first. The model reports a swarm-descriptor rejection before a stack-list rejection. In both cases the two reads count as sent.
- The compose file is read as an opaque string. The read either yields the text or fails with a message.
- Logging (`core.info`, `core.error`) is not modelled. The `JSON.stringify` of the response body is not modelled either: the body is a string the API handed back.
- `Object.entries` lists integer-like keys first, in numeric order. The model keeps the insertion order for every key.
- Ids are natural numbers. A missing or non-numeric `Id` in an API response is not modelled. An id of 0 is kept, and treated as missing where the code's truthiness does so.
- Swarm ids are strings. A non-string `ID` or `Id` field is not modelled.
- Nothing is modelled past the end of the `try`/`catch`: the process exit code, and how the runner treats `setFailed`.
