/** The administrator's project list: the status filter read from the query
    string, the search / status / client filter, and how the list is updated
    in place after creating and deleting a project. */
module ProjectsPage {
  import opened Common
  import opened Text
  import opened Store
  import opened AdminUi

  /** The status buttons: everything, or one status. */
  datatype StatusFilter = ALL | Only(status: ProjectStatus)

  /** `initialStatus`: the `status` query parameter upper-cased, when that is
      one of the four statuses; otherwise (or when absent) everything. */
  function InitialStatus(param: Option<string>): (f: StatusFilter)
    ensures param.None? ==> f == ALL
    ensures param.Some? && ParseStatus(ToUpper(param.value)).None? ==> f == ALL
    ensures f.Only? ==> param.Some? && StatusName(f.status) == ToUpper(param.value)
  {
    match param
    case None => ALL
    case Some(text) =>
      match ParseStatus(ToUpper(text))
      case Some(s) => Only(s)
      case None => ALL
  }

  /** A status name has no lower-case letter. */
  lemma StatusNameUpper(s: ProjectStatus)
    ensures forall i :: 0 <= i < |StatusName(s)| ==> !('a' <= StatusName(s)[i] <= 'z')
  {
  }

  lemma UpperLowerChar(c: char)
    requires !('a' <= c <= 'z')
    ensures UpperChar(LowerChar(c)) == c
  {
    if 'A' <= c <= 'Z' {
      var d := (c as int + 32) as char;
      assert 'a' <= d <= 'z';
      assert (d as int - 32) as char == c;
    }
  }

  /** Upper-casing undoes lower-casing on text without lower-case letters. */
  lemma UpperOfLower(s: string)
    requires forall i :: 0 <= i < |s| ==> !('a' <= s[i] <= 'z')
    ensures ToUpper(ToLower(s)) == s
  {
    var lower := ToLower(s);
    var back := ToUpper(lower);
    forall i | 0 <= i < |s| ensures back[i] == s[i] {
      assert lower[i] == LowerChar(s[i]);
      UpperLowerChar(s[i]);
    }
  }

  /** The query parameter is read in any case: a status written in lower case
      selects that status. */
  lemma InitialStatusAnyCase(s: ProjectStatus)
    ensures InitialStatus(Some(ToLower(StatusName(s)))) == Only(s)
    ensures InitialStatus(Some(StatusName(s))) == Only(s)
  {
    StatusNameUpper(s);
    UpperOfLower(StatusName(s));
    UpperIsIdentity(StatusName(s));
  }

  /** Whether a project passes the search box (case-insensitive substring of
      its title or of its client's name), the status buttons, and the `client`
      query parameter (absent or empty: any client). */
  predicate Listed(p: UiProject, search: string, filter: StatusFilter, clientParam: string) {
    && (Contains(ToLower(p.title), ToLower(search)) || Contains(ToLower(p.clientName), ToLower(search)))
    && (filter == ALL || p.status == StatusName(filter.status))
    && (clientParam == "" || p.clientId == clientParam)
  }

  function ListedUnder(search: string, filter: StatusFilter, clientParam: string): UiProject -> bool {
    (p: UiProject) => Listed(p, search, filter, clientParam)
  }

  /** `filteredProjects`: exactly the projects that pass all three tests. */
  function FilteredProjects(projects: seq<UiProject>, search: string, filter: StatusFilter, clientParam: string)
    : (r: seq<UiProject>)
    ensures |r| <= |projects|
    ensures forall p :: p in r <==>
              && p in projects
              && (Contains(ToLower(p.title), ToLower(search)) || Contains(ToLower(p.clientName), ToLower(search)))
              && (filter == ALL || p.status == StatusName(filter.status))
              && (clientParam == "" || p.clientId == clientParam)
  {
    Filter(projects, ListedUnder(search, filter, clientParam))
  }

  /** With no search, a status and a client, the list holds as many projects
      as that client has in that status. */
  lemma {:induction false} ListedCount(projects: seq<UiProject>, s: ProjectStatus, clientId: string)
    requires clientId != ""
    ensures |FilteredProjects(projects, "", Only(s), clientId)|
            == Count(ClientProjects(projects, clientId), StatusIs(StatusName(s)))
  {
    if |projects| > 0 {
      var p := projects[0];
      ContainsEmpty(ToLower(p.title));
      ListedCount(projects[1..], s, clientId);
      var rest := ClientProjects(projects[1..], clientId);
      if p.clientId == clientId {
        assert ClientProjects(projects, clientId) == [p] + rest;
        assert ([p] + rest)[1..] == rest;
      } else {
        assert ClientProjects(projects, clientId) == rest;
      }
    }
  }

  /** What the create form does on submit. */
  datatype CreateOutcome = FormError(message: string) | CreateSent(title: string, description: string, clientId: string)

  /** `handleCreateProject`: without a chosen client nothing is sent; the
      request carries title, description and client but not the status. */
  function SubmitProject(title: string, description: string, clientId: string): (o: CreateOutcome)
    ensures o.FormError? <==> clientId == ""
    ensures o.FormError? ==> o.message == "Please select a client"
    ensures o.CreateSent? ==> o == CreateSent(title, description, clientId)
  {
    if clientId == "" then FormError("Please select a client") else CreateSent(title, description, clientId)
  }

  /** The name shown for a new project's client: the chosen client's name
      from the loaded list, or "Unknown". */
  function ClientName(clients: seq<ClientRecord>, clientId: string): (name: string)
    ensures name != ""
    ensures (forall i :: 0 <= i < |clients| ==> clients[i].id != clientId) ==> name == "Unknown"
    ensures name != "Unknown" ==> exists i :: 0 <= i < |clients| && clients[i].id == clientId && clients[i].username == name
  {
    match IndexWhere(clients, (c: ClientRecord) => c.id == clientId)
    case Some(k) => if clients[k].username != "" then clients[k].username else "Unknown"
    case None => "Unknown"
  }

  /** After the server answers, the new project goes on top with the client's
      name and the status chosen in the form. */
  function Created(projects: seq<UiProject>, clients: seq<ClientRecord>, created: UiProject, formStatus: ProjectStatus)
    : (r: seq<UiProject>)
    ensures |r| == |projects| + 1 && r[1..] == projects
    ensures r[0].id == created.id && r[0].title == created.title && r[0].clientId == created.clientId
    ensures r[0].status == StatusName(formStatus)
    ensures r[0].clientName == ClientName(clients, created.clientId)
  {
    [created.(clientName := ClientName(clients, created.clientId), status := StatusName(formStatus))] + projects
  }

  function OtherProject(id: string): UiProject -> bool {
    (p: UiProject) => p.id != id
  }

  /** `handleDeleteProject`'s list update. */
  function Deleted(projects: seq<UiProject>, id: string): (r: seq<UiProject>)
    ensures forall p :: p in r <==> p in projects && p.id != id
  {
    Filter(projects, OtherProject(id))
  }

  /** Deleting keeps the order and the repeats of the other rows: it deletes
      from two lists one after the other, and a single row stays or goes. */
  lemma DeletedKeepsOrder(a: seq<UiProject>, b: seq<UiProject>, id: string)
    ensures Deleted(a + b, id) == Deleted(a, id) + Deleted(b, id)
    ensures forall p :: Deleted([p], id) == if p.id != id then [p] else []
  {
    FilterAppend(a, b, OtherProject(id));
    forall p ensures Deleted([p], id) == if p.id != id then [p] else [] {
      assert [p][1..] == [];
    }
  }

  /** Creating a project and deleting it leaves the list as it was. */
  lemma CreateThenDelete(projects: seq<UiProject>, clients: seq<ClientRecord>, created: UiProject, formStatus: ProjectStatus)
    requires forall i :: 0 <= i < |projects| ==> projects[i].id != created.id
    ensures Deleted(Created(projects, clients, created, formStatus), created.id) == projects
  {
    var row := created.(clientName := ClientName(clients, created.clientId), status := StatusName(formStatus));
    var r := [row] + projects;
    assert r[1..] == projects;
    FilterAll(projects, OtherProject(created.id));
    assert Filter(r, OtherProject(created.id)) == projects;
  }

  /** A new project is listed under the status chosen in the form. */
  lemma CreatedListedUnderItsStatus(projects: seq<UiProject>, clients: seq<ClientRecord>, created: UiProject,
                                    formStatus: ProjectStatus)
    ensures Created(projects, clients, created, formStatus)[0]
            in FilteredProjects(Created(projects, clients, created, formStatus), "", Only(formStatus), created.clientId)
  {
    var r := Created(projects, clients, created, formStatus);
    ContainsEmpty(ToLower(r[0].title));
  }
}
