/**
 * The admin page's state: a login gate on the configured token, the local
 * list of projects, and the add / edit form. Each handler is a method on
 * the component's state; the outcome of each awaited call to the catalog
 * adapter (and of `window.confirm`) is a parameter. Alerts and console
 * output leave no state and are not modelled.
 */
module Admin {
  import opened Common
  import opened Store
  import Catalog

  /** The categories of the form's select; the form starts on the first. */
  const Categories: seq<string> := [
    "Toiture",
    "Portes et Fenêtres",
    "Revêtement Extérieur",
    "Finition de Sous-sol",
    "Salle de Bain",
    "Construction de Garage",
    "Patio & Terrasses",
    "Rénovation Commerciale"
  ]

  const NoTokenError: string := "Aucun token admin configuré (VITE_ADMIN_TOKEN)."
  const WrongPasswordError: string := "Mot de passe incorrect."
  const LoadFailedError: string := "Impossible de charger les projets."

  /** The empty form. */
  const EmptyDraft: Draft := Draft("", Categories[0], "", "", "")

  /** The form filled from an existing project, as the edit button does. */
  function Prefill(p: Project): (d: Draft)
    ensures d.title == p.title && d.category == p.category && d.location == p.location
    ensures d.description == p.description && d.imageUrl == p.imageUrl
  {
    Draft(p.title, p.category, p.location, p.description, p.imageUrl)
  }

  /** `prev.filter(p => p.id !== id)`. */
  function WithoutProject(ps: seq<Project>, id: string): (r: seq<Project>)
    ensures forall p :: p in r <==> p in ps && p.id != id
    ensures |r| <= |ps|
  {
    Filter(ps, (p: Project) => p.id != id)
  }

  /** Deleting locally keeps the other projects in their order. */
  lemma WithoutProjectKeepsOrder(ps: seq<Project>, id: string)
    ensures IsSubsequence(WithoutProject(ps, id), ps)
  {
    FilterIsSubsequence(ps, (p: Project) => p.id != id);
  }

  /** `prev.map(p => p.id === id ? created : p)`. */
  function ReplaceProject(ps: seq<Project>, id: string, created: Project): (r: seq<Project>)
    ensures |r| == |ps|
  {
    seq(|ps|, i requires 0 <= i < |ps| => if ps[i].id == id then created else ps[i])
  }

  /** Replacing touches exactly the entries with that id: with at most one
      such entry, the list keeps its length, the entry keeps its position,
      and the list is unchanged when no entry has that id. */
  lemma ReplaceProjectInPlace(ps: seq<Project>, id: string, created: Project)
    ensures forall i :: 0 <= i < |ps| && ps[i].id != id ==> ReplaceProject(ps, id, created)[i] == ps[i]
    ensures forall i :: 0 <= i < |ps| && ps[i].id == id ==> ReplaceProject(ps, id, created)[i] == created
    ensures (forall p :: p in ps ==> p.id != id) ==> ReplaceProject(ps, id, created) == ps
  {
  }

  /** `files ? Array.from(files) : []`. */
  function FilesToSend(files: Option<seq<LocalFile>>): seq<LocalFile> {
    if files.Some? then files.value else []
  }

  /** `if (editingId)`: a non-empty id means the form edits that project. */
  predicate Editing(editingId: Option<string>) {
    editingId.Some? && editingId.value != ""
  }

  /** The form is sent unless the deletion that precedes an edit threw. */
  predicate Sent(editingId: Option<string>, removed: Result<()>) {
    !Editing(editingId) || removed.Ok?
  }

  class AdminPanel {
    /** `VITE_ADMIN_TOKEN || ''`. */
    const adminToken: string
    var isAuthenticated: bool
    /** `sessionStorage['lbp_admin'] === 'true'`. */
    var sessionFlag: bool
    var error: string
    var projects: seq<Project>
    var isAdding: bool
    var isLoading: bool
    var loadError: string
    var saving: bool
    var deletingId: Option<string>
    var editingId: Option<string>
    var newProject: Draft
    /** The picked gallery files (`FileList | null`). */
    var files: Option<seq<LocalFile>>
    var coverFile: Option<LocalFile>

    /** The first render and the mount effect: restore the session flag, then load. */
    constructor Mount(token: string, storedFlag: bool, fetched: Result<seq<Project>>)
      ensures adminToken == token && sessionFlag == storedFlag
      ensures isAuthenticated == storedFlag && error == ""
      ensures fetched.Ok? ==> projects == fetched.value && loadError == ""
      ensures fetched.Err? ==> projects == [] && loadError == LoadFailedError
      ensures !isLoading && !isAdding && !saving
      ensures deletingId.None? && editingId.None? && newProject == EmptyDraft
      ensures files.None? && coverFile.None?
    {
      adminToken := token;
      isAuthenticated := false;
      sessionFlag := storedFlag;
      error := "";
      projects := [];
      isAdding := false;
      isLoading := true;
      loadError := "";
      saving := false;
      deletingId := None;
      editingId := None;
      newProject := EmptyDraft;
      files := None;
      coverFile := None;
      new;
      if sessionFlag {
        isAuthenticated := true;
      }
      LoadProjects(fetched);
    }

    /** `loadProjects`: on success the list is what the server returned; on
        failure the list stays and the load error is shown. */
    method LoadProjects(fetched: Result<seq<Project>>)
      modifies this
      ensures projects == (if fetched.Ok? then fetched.value else old(projects))
      ensures loadError == (if fetched.Ok? then "" else LoadFailedError)
      ensures !isLoading
      ensures isAuthenticated == old(isAuthenticated) && sessionFlag == old(sessionFlag) && error == old(error)
      ensures isAdding == old(isAdding) && saving == old(saving)
      ensures deletingId == old(deletingId) && editingId == old(editingId)
      ensures newProject == old(newProject) && files == old(files) && coverFile == old(coverFile)
    {
      isLoading := true;
      loadError := "";
      if fetched.Ok? {
        projects := fetched.value;
      } else {
        loadError := LoadFailedError;
      }
      isLoading := false;
    }

    /** `handleLogin`: with no configured token nobody can log in; otherwise
        the password must equal the token. */
    method HandleLogin(password: string)
      modifies this
      ensures isAuthenticated == (old(isAuthenticated) || (adminToken != "" && password == adminToken))
      ensures sessionFlag == (old(sessionFlag) || (adminToken != "" && password == adminToken))
      ensures adminToken == "" ==> error == NoTokenError
      ensures adminToken != "" && password == adminToken ==> error == ""
      ensures adminToken != "" && password != adminToken ==> error == WrongPasswordError
      ensures projects == old(projects) && isAdding == old(isAdding) && editingId == old(editingId)
      ensures newProject == old(newProject) && files == old(files) && coverFile == old(coverFile)
      ensures isLoading == old(isLoading) && loadError == old(loadError) && saving == old(saving)
      ensures deletingId == old(deletingId)
    {
      if adminToken == "" {
        error := NoTokenError;
        return;
      }
      if password == adminToken {
        isAuthenticated := true;
        sessionFlag := true;
        error := "";
      } else {
        error := WrongPasswordError;
      }
    }

    /** `handleLogout`. */
    method HandleLogout()
      modifies this
      ensures !isAuthenticated && !sessionFlag
      ensures error == old(error) && projects == old(projects) && isAdding == old(isAdding)
      ensures editingId == old(editingId) && newProject == old(newProject)
      ensures files == old(files) && coverFile == old(coverFile)
      ensures isLoading == old(isLoading) && loadError == old(loadError) && saving == old(saving)
      ensures deletingId == old(deletingId)
    {
      isAuthenticated := false;
      sessionFlag := false;
    }

    /** The "new project" / "cancel" button. */
    method ToggleAdding()
      modifies this
      ensures isAdding == !old(isAdding)
      ensures isAuthenticated == old(isAuthenticated) && sessionFlag == old(sessionFlag) && error == old(error)
      ensures projects == old(projects) && editingId == old(editingId) && newProject == old(newProject)
      ensures files == old(files) && coverFile == old(coverFile)
      ensures isLoading == old(isLoading) && loadError == old(loadError) && saving == old(saving)
      ensures deletingId == old(deletingId)
    {
      isAdding := !isAdding;
    }

    /** The edit button: open the form on the project's fields; the picked
        files are left as they are. */
    method StartEdit(p: Project)
      modifies this
      ensures isAdding && editingId == Some(p.id) && newProject == Prefill(p)
      ensures files == old(files) && coverFile == old(coverFile)
      ensures isAuthenticated == old(isAuthenticated) && sessionFlag == old(sessionFlag) && error == old(error)
      ensures projects == old(projects)
      ensures isLoading == old(isLoading) && loadError == old(loadError) && saving == old(saving)
      ensures deletingId == old(deletingId)
    {
      isAdding := true;
      editingId := Some(p.id);
      newProject := Draft(p.title, p.category, p.location, p.description, p.imageUrl);
    }

    /** `handleDelete`: a declined confirmation changes nothing, here or on
        the server; otherwise `removeProject` is asked to delete `id`
        (`removal`), and the project leaves the local list only when that
        call succeeded (`removed`). */
    method HandleDelete(id: string, confirmed: bool, removed: Result<()>) returns (removal: Option<string>)
      modifies this
      ensures removal == (if confirmed then Some(id) else None)
      ensures !confirmed ==> projects == old(projects) && deletingId == old(deletingId)
      ensures confirmed ==> deletingId.None?
      ensures confirmed && removed.Ok? ==> projects == WithoutProject(old(projects), id)
      ensures removed.Err? ==> projects == old(projects)
      ensures isAuthenticated == old(isAuthenticated) && sessionFlag == old(sessionFlag) && error == old(error)
      ensures isAdding == old(isAdding) && editingId == old(editingId) && newProject == old(newProject)
      ensures files == old(files) && coverFile == old(coverFile)
      ensures isLoading == old(isLoading) && loadError == old(loadError) && saving == old(saving)
    {
      removal := None;
      if !confirmed {
        return;
      }
      deletingId := Some(id);
      removal := Some(id);
      if removed.Ok? {
        projects := WithoutProject(projects, id);
      }
      deletingId := None;
    }

    /** `handleAddProject`. When `editingId` is set (and non-empty) the old
        record is removed first and the form is sent only if that succeeded;
        otherwise the form is sent directly. `removed` and `created` are the
        outcomes of the two awaited calls; `removal` is the id
        `removeProject` was asked to delete, if it was called, and `form`
        is what `createProject` was given to send, if it was called. */
    method HandleAddProject(removed: Result<()>, created: Result<Project>)
      returns (removal: Option<string>, form: Option<seq<FormEntry>>)
      modifies this
      ensures removal == (if Editing(old(editingId)) then Some(old(editingId).value) else None)
      ensures Sent(old(editingId), removed) ==> form == Some(ExpectedForm(old(newProject), FilesToSend(old(files)), old(coverFile)))
      ensures !Sent(old(editingId), removed) ==> form.None?
      ensures Sent(old(editingId), removed) && created.Ok? && Editing(old(editingId)) ==>
        projects == ReplaceProject(old(projects), old(editingId).value, created.value)
      ensures Sent(old(editingId), removed) && created.Ok? && !Editing(old(editingId)) ==>
        projects == [created.value] + old(projects)
      ensures Sent(old(editingId), removed) && created.Ok? ==>
        !isAdding && editingId.None? && newProject == EmptyDraft && files.None? && coverFile.None?
      ensures !(Sent(old(editingId), removed) && created.Ok?) ==>
        projects == old(projects) && isAdding == old(isAdding) && editingId == old(editingId) &&
        newProject == old(newProject) && files == old(files) && coverFile == old(coverFile)
      ensures !saving
      ensures isAuthenticated == old(isAuthenticated) && sessionFlag == old(sessionFlag) && error == old(error)
      ensures isLoading == old(isLoading) && loadError == old(loadError) && deletingId == old(deletingId)
    {
      saving := true;
      form := None;
      var editing := Editing(editingId);
      removal := if editing then Some(editingId.value) else None;
      if editing && removed.Err? {
        saving := false;
        return;
      }
      var f := BuildForm(newProject, FilesToSend(files), coverFile);
      form := Some(f);
      if created.Err? {
        saving := false;
        return;
      }
      if editing {
        projects := ReplaceProject(projects, editingId.value, created.value);
      } else {
        projects := [created.value] + projects;
      }
      CloseForm();
      saving := false;
    }

    /** The success path of `handleAddProject`: the form closes and is cleared. */
    method CloseForm()
      modifies this
      ensures !isAdding && editingId.None? && newProject == EmptyDraft && files.None? && coverFile.None?
      ensures projects == old(projects) && saving == old(saving)
      ensures isAuthenticated == old(isAuthenticated) && sessionFlag == old(sessionFlag) && error == old(error)
      ensures isLoading == old(isLoading) && loadError == old(loadError) && deletingId == old(deletingId)
    {
      isAdding := false;
      editingId := None;
      newProject := EmptyDraft;
      files := None;
      coverFile := None;
    }
  }

  /** Editing without picking new files re-sends the project's cover URL and
      no gallery: the server then creates a row with that cover and a NULL
      gallery, so the old gallery is not carried over. */
  lemma EditWithoutUploadsDropsGallery(p: Project, rows: seq<Catalog.Row>, serverToken: string,
                                       authorization: string, adminHeader: string, now: nat, createdAt: int)
    requires p.imageUrl != ""
    ensures var form := ExpectedForm(Prefill(p), FilesToSend(None), None);
      TextValues(form, "imageUrl") == [p.imageUrl] &&
      FilesNamed(form, "images") == [] && FilesNamed(form, "cover") == []
    ensures var req := Catalog.CreateRequest(authorization, adminHeader,
          Catalog.Fields(p.title, p.category, p.location, p.description, p.imageUrl), None, []);
      var resp := Catalog.CreateOutcome(rows, serverToken, req, now, createdAt);
      resp.Created? ==> resp.row.imageUrl == p.imageUrl && resp.row.images.None?
  {
    FormContents(Prefill(p), [], None);
  }
}
