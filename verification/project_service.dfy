/** The client's notion of the current project
    (src/app/services/project.service.ts): the current-project subject and
    the `currentProjectId` entry of local storage. HTTP responses are
    parameters of the transitions. */
module ProjectService {
  import opened Wrappers
  import opened Models

  /** The current project and the stored id (`null` when the entry is absent). */
  datatype ClientState = ClientState(current: Option<Project>, storedId: Option<string>)

  /** How an awaited GET or POST settled: with a body (possibly `null`) or
      by rejecting. */
  datatype Response<T> = Body(body: Option<T>) | Failed(reason: Thrown)

  /** `loadProject(id)` once the GET settles. The stored id becomes the
      requested id, even when the body is `null`. */
  function LoadProject(s: ClientState, id: string, response: Response<Project>): (r: ClientState)
    ensures response.Body? ==> r.current == response.body && r.storedId == Some(id)
    ensures response.Failed? ==> r.current == None && r.storedId == None
  {
    match response
    case Body(p) => ClientState(p, Some(id))
    case Failed(_) => ClientState(None, None)
  }

  /** The constructor: loads the stored id when it is truthy (present and
      not empty); `response` is what that load's GET settles with. */
  function Construct(storedId: Option<string>, response: Response<Project>): (r: ClientState)
    ensures (storedId.None? || storedId.value == "") ==> r == ClientState(None, storedId)
    ensures storedId.Some? && storedId.value != "" && response.Failed? ==> r == ClientState(None, None)
    ensures storedId.Some? && storedId.value != "" && response.Body? ==>
      r == ClientState(response.body, storedId)
  {
    var initial := ClientState(None, storedId);
    if storedId.Some? && storedId.value != "" then LoadProject(initial, storedId.value, response)
    else initial
  }

  /** `createProject(...)` once the POST settles. A non-null body becomes
      current and its id is stored; a `null` body or a rejection (which
      the method propagates) changes nothing. */
  function CreateProject(s: ClientState, response: Response<Project>): (r: ClientState)
    ensures response.Body? && response.body.Some? ==>
      r.current == response.body && r.storedId == Some(response.body.value.id)
    ensures !(response.Body? && response.body.Some?) ==> r == s
  {
    match response
    case Body(Some(p)) => ClientState(Some(p), Some(p.id))
    case _ => s
  }

  /** `deleteProject(id)` once the DELETE settles: the current project and
      the stored id are cleared only when the deleted id is the current
      project's. A rejection propagates and changes nothing. */
  function DeleteProject(s: ClientState, id: string, call: Completion): (r: ClientState)
    ensures call.Resolved? && s.current.Some? && s.current.value.id == id ==> r == ClientState(None, None)
    ensures !(call.Resolved? && s.current.Some? && s.current.value.id == id) ==> r == s
  {
    if call.Resolved? && s.current.Some? && s.current.value.id == id then ClientState(None, None)
    else s
  }

  /** `getCurrentProjectValue()`. */
  function GetCurrentProjectValue(s: ClientState): Option<Project> {
    s.current
  }

  /** The current project's id is the stored id. */
  ghost predicate Synced(s: ClientState) {
    s.current.Some? ==> s.storedId == Some(s.current.value.id)
  }

  /** Every transition keeps the current project and the stored id in step,
      provided the server answers a load with the project asked for. */
  lemma TransitionsKeepSynced(s: ClientState, id: string, load: Response<Project>,
                              created: Response<Project>, deleted: string, call: Completion)
    requires Synced(s)
    requires load.Body? && load.body.Some? ==> load.body.value.id == id
    ensures Synced(LoadProject(s, id, load))
    ensures Synced(CreateProject(s, created))
    ensures Synced(DeleteProject(s, deleted, call))
    ensures Synced(Construct(Some(id), load))
  {
  }

  /** The value read back is the one the last successful transition set. */
  lemma CurrentValueIsLastSet(s: ClientState, id: string, p: Project, other: string)
    requires other != p.id
    ensures GetCurrentProjectValue(LoadProject(s, id, Body(Some(p)))) == Some(p)
    ensures GetCurrentProjectValue(CreateProject(s, Body(Some(p)))) == Some(p)
    ensures GetCurrentProjectValue(DeleteProject(CreateProject(s, Body(Some(p))), other, Resolved)) == Some(p)
    ensures GetCurrentProjectValue(DeleteProject(CreateProject(s, Body(Some(p))), p.id, Resolved)) == None
  {
  }
}
