/** The project handlers: creation and status changes by the admin, the admin's
    full list, a client's own list, and the detail view shared by both roles. */
module ProjectController {
  import opened Common
  import opened Store
  import opened Tokens
  import opened Views
  import opened Http
  import opened Sorting

  function ProjectCreatedAt(p: Project): int { p.createdAt }

  /** The `client: { select: { username } }` inclusion. */
  function ClientUsername(st: State, clientId: Id): (u: Option<string>)
    ensures u.Some? <==> ClientById(st, clientId).Some?
    ensures u.Some? ==> exists c :: c in st.clients && c.id == clientId && c.username == u.value
  {
    match ClientById(st, clientId)
    case None => None
    case Some(i) => Some(st.clients[i].username)
  }

  /** The test `entry.projectId === projectId`. */
  function InProject(projectId: Id): Entry -> bool {
    (e: Entry) => e.projectId == projectId
  }

  /** The `entries: true` inclusion: the project's entries in table order. */
  function EntriesOfProject(st: State, projectId: Id): (es: seq<Entry>)
    ensures forall i :: 0 <= i < |es| ==> es[i].projectId == projectId && es[i] in st.entries
    ensures forall e :: e in st.entries && e.projectId == projectId ==> e in es
  {
    var es := Filter(st.entries, InProject(projectId));
    assert forall e :: e in st.entries && e.projectId == projectId ==> e in es by {
      forall e | e in st.entries && e.projectId == projectId ensures e in es {
        var k :| 0 <= k < |st.entries| && st.entries[k] == e;
      }
    }
    es
  }

  /** The projects a list of documents carries, in order. */
  function DocProjects(docs: seq<ProjectDoc>): (ps: seq<Project>)
    ensures |ps| == |docs|
    ensures forall i :: 0 <= i < |docs| ==> ps[i] == docs[i].project
  {
    if |docs| == 0 then [] else [docs[0].project] + DocProjects(docs[1..])
  }

  /** The admin's listing: each project with its client's name, no entries. */
  function Listing(st: State, ps: seq<Project>): (docs: seq<ProjectDoc>)
    ensures DocProjects(docs) == ps
    ensures forall d :: d in docs ==> d.entries.None? && d.clientUsername == ClientUsername(st, d.project.clientId)
  {
    if |ps| == 0 then []
    else [ProjectDoc(ps[0], ClientUsername(st, ps[0].clientId), None)] + Listing(st, ps[1..])
  }

  /** `createProject`: a missing title or client id is refused before any
      lookup; an unknown client is 404; otherwise a PENDING project is added. */
  function CreateProject(st: State, title: string, description: Option<string>, clientId: Id, newId: Id, nowMs: int): (out: Step)
    requires newId !in ProjectIds(st)
    ensures title == "" || clientId == "" ==> out == Reply(st, 400, "Title and Client are required")
    ensures title != "" && clientId != "" && ClientById(st, clientId).None? ==>
              out == Reply(st, 404, "Selected client does not exist")
    ensures out.resp.status == 201 <==> title != "" && clientId != "" && ClientById(st, clientId).Some?
    ensures out.resp.status != 201 ==> out.st == st
    ensures out.resp.status == 201 ==>
              && out.resp.body == ProjectRow(Project(newId, title, description, PENDING, clientId, nowMs, nowMs))
              && out.st == st.(projects := st.projects + [out.resp.body.project])
    ensures Valid(st) ==> Valid(out.st)
  {
    if title == "" || clientId == "" then Reply(st, 400, "Title and Client are required")
    else
      match ClientById(st, clientId)
      case None => Reply(st, 404, "Selected client does not exist")
      case Some(ci) =>
        var p := Project(newId, title, description, PENDING, clientId, nowMs, nowMs);
        var st' := st.(projects := st.projects + [p]);
        assert Valid(st) ==> Valid(st') by {
          if Valid(st) {
            assert st.clients[ci] in st.clients;
            assert forall i :: 0 <= i < |st.projects| ==> st'.projects[i] == st.projects[i];
            assert ProjectIds(st) <= ProjectIds(st');
            forall i | 0 <= i < |st.projects| ensures st.projects[i].id != newId {
              assert st.projects[i] in st.projects;
            }
          }
        }
        Step(st', Response(201, ProjectRow(p)))
  }

  /** `getAllProjects`: every project, newest first, with its client's name. */
  function GetAllProjects(st: State): (out: Step)
    ensures out.st == st && out.resp.status == 200 && out.resp.body.ProjectDocs?
    ensures SortedDesc(DocProjects(out.resp.body.docs), ProjectCreatedAt)
    ensures multiset(DocProjects(out.resp.body.docs)) == multiset(st.projects)
    ensures forall d :: d in out.resp.body.docs ==>
              d.entries.None? && d.clientUsername == ClientUsername(st, d.project.clientId)
  {
    Step(st, Response(200, ProjectDocs(Listing(st, SortDesc(st.projects, ProjectCreatedAt)))))
  }

  /** In a valid store every listed project shows its client's name. */
  lemma AllProjectsNamed(st: State)
    requires Valid(st)
    ensures forall d :: d in GetAllProjects(st).resp.body.docs ==> d.clientUsername.Some?
  {
    forall p | p in st.projects ensures ClientById(st, p.clientId).Some? {
      ProjectHasClient(st, p);
    }
    NamedWhenOwned(st, GetAllProjects(st).resp.body.docs);
  }

  /** When every project's client exists, a listing of the same projects
      names every client. */
  lemma NamedWhenOwned(st: State, docs: seq<ProjectDoc>)
    requires forall p :: p in st.projects ==> ClientById(st, p.clientId).Some?
    requires multiset(DocProjects(docs)) == multiset(st.projects)
    requires forall d :: d in docs ==> d.clientUsername == ClientUsername(st, d.project.clientId)
    ensures forall d :: d in docs ==> d.clientUsername.Some?
  {
    var ps := DocProjects(docs);
    forall d | d in docs ensures d.clientUsername.Some? {
      var k :| 0 <= k < |docs| && docs[k] == d;
      assert d.project == ps[k];
      SameMultisetSameMembers(ps, st.projects, d.project);
    }
  }

  lemma SameMultisetSameMembers<T>(a: seq<T>, b: seq<T>, x: T)
    requires multiset(a) == multiset(b) && x in a
    ensures x in b
  {
    assert x in multiset(a);
  }

  /** In a valid store every project's client exists. */
  lemma ProjectHasClient(st: State, p: Project)
    requires Valid(st) && p in st.projects
    ensures ClientById(st, p.clientId).Some?
  {
    var j :| 0 <= j < |st.projects| && st.projects[j] == p;
    assert p.clientId in ClientIds(st);
    var c :| c in st.clients && c.id == p.clientId;
    var ci :| 0 <= ci < |st.clients| && st.clients[ci] == c;
  }

  /** A project as the client list and the detail view send it: the entries
      in table order, each formatted. */
  function DocWithEntries(st: State, p: Project, clientUsername: Option<string>): ProjectDoc {
    FormatProjectEntries(p, clientUsername, Some(EntriesOfProject(st, p.id)))
  }

  /** The client's listing: each project with its formatted entries. */
  function EntryListing(st: State, ps: seq<Project>): (docs: seq<ProjectDoc>)
    ensures DocProjects(docs) == ps
    ensures forall d :: d in docs ==> d == DocWithEntries(st, d.project, None)
  {
    if |ps| == 0 then [] else [DocWithEntries(st, ps[0], None)] + EntryListing(st, ps[1..])
  }

  /** The `where: { clientId }` filter: the requester's projects in table order. */
  function OwnProjects(st: State, userId: Id): (ps: seq<Project>)
    ensures ps == Filter(st.projects, (p: Project) => p.clientId == userId)
    ensures forall p :: p in ps <==> p in st.projects && p.clientId == userId
  {
    var ps := Filter(st.projects, (p: Project) => p.clientId == userId);
    assert forall p :: p in st.projects && p.clientId == userId ==> p in ps by {
      forall p | p in st.projects && p.clientId == userId ensures p in ps {
        var k :| 0 <= k < |st.projects| && st.projects[k] == p;
      }
    }
    assert forall p :: p in ps ==> p in st.projects && p.clientId == userId by {
      forall p | p in ps ensures p in st.projects && p.clientId == userId {
        var k :| 0 <= k < |ps| && ps[k] == p;
      }
    }
    ps
  }

  /** `getMyProjects`: the requester's own projects, newest first, each with
      its formatted entries. */
  function GetMyProjects(st: State, userId: Id): (out: Step)
    ensures out.st == st && out.resp.status == 200 && out.resp.body.ProjectDocs?
    ensures SortedDesc(DocProjects(out.resp.body.docs), ProjectCreatedAt)
    ensures forall p :: p in DocProjects(out.resp.body.docs) <==> p in st.projects && p.clientId == userId
    ensures multiset(DocProjects(out.resp.body.docs)) == multiset(OwnProjects(st, userId))
    ensures forall d :: d in out.resp.body.docs ==> d == DocWithEntries(st, d.project, None)
  {
    var mine := OwnProjects(st, userId);
    var ps := SortDesc(mine, ProjectCreatedAt);
    SortDescSameElements(mine, ProjectCreatedAt);
    Step(st, Response(200, ProjectDocs(EntryListing(st, ps))))
  }

  /** A client's list shows every entry of each of its projects and nothing else. */
  lemma MyProjectsShowAllEntries(st: State, userId: Id)
    ensures forall d :: d in GetMyProjects(st, userId).resp.body.docs ==>
              && d.entries.Some?
              && |d.entries.value| == |EntriesOfProject(st, d.project.id)|
              && forall v :: v in d.entries.value ==> v.entry in st.entries && v.entry.projectId == d.project.id
  {
    forall d | d in GetMyProjects(st, userId).resp.body.docs
      ensures d.entries.Some?
      ensures |d.entries.value| == |EntriesOfProject(st, d.project.id)|
      ensures forall v :: v in d.entries.value ==> v.entry in st.entries && v.entry.projectId == d.project.id
    {
      var es := EntriesOfProject(st, d.project.id);
      forall v | v in d.entries.value ensures v.entry in st.entries && v.entry.projectId == d.project.id {
        var k :| 0 <= k < |d.entries.value| && d.entries.value[k] == v;
        assert v.entry == es[k];
      }
    }
  }

  /** Whether the requester may see a project: a CLIENT only its own. */
  predicate MaySee(user: Claims, p: Project) {
    !(user.role == CLIENT && p.clientId != user.id)
  }

  /** `getProjectDetail`: 404 for a missing project comes before the
      ownership check; a client asking for another client's project gets 403. */
  function GetProjectDetail(st: State, id: Id, user: Claims): (out: Step)
    ensures out.st == st
    ensures ProjectById(st, id).None? ==> out == Reply(st, 404, "Project not found")
    ensures out.resp.status == 403 <==>
              ProjectById(st, id).Some? && !MaySee(user, st.projects[ProjectById(st, id).value])
    ensures out.resp.status == 403 ==> out.resp.body == Message("Forbidden")
    ensures out.resp.status == 200 <==>
              ProjectById(st, id).Some? && MaySee(user, st.projects[ProjectById(st, id).value])
    ensures out.resp.status == 200 ==>
              && out.resp.body.ProjectDetail?
              && var p := out.resp.body.doc.project;
                 && p == st.projects[ProjectById(st, id).value] && p.id == id
                 && out.resp.body.doc == DocWithEntries(st, p, ClientUsername(st, p.clientId))
  {
    match ProjectById(st, id)
    case None => Reply(st, 404, "Project not found")
    case Some(i) =>
      var p := st.projects[i];
      if !MaySee(user, p) then Reply(st, 403, "Forbidden")
      else Step(st, Response(200, ProjectDetail(DocWithEntries(st, p, ClientUsername(st, p.clientId)))))
  }

  /** An admin is never refused a project that exists, and neither is its owner. */
  lemma DetailNeverForbidsAdminOrOwner(st: State, id: Id, user: Claims)
    requires ProjectById(st, id).Some?
    requires user.role == ADMIN || user.id == st.projects[ProjectById(st, id).value].clientId
    ensures GetProjectDetail(st, id, user).resp.status == 200
  {
  }

  /** `updateProjectStatus`: the store rejects a value outside the enum and a
      missing project alike (500); otherwise the status is overwritten, with no
      transition rule. An absent status leaves the field as it was. */
  function UpdateProjectStatus(st: State, id: Id, status: Option<string>, nowMs: int): (out: Step)
    ensures status.Some? && ParseStatus(status.value).None? ==> out == Reply(st, 500, InternalError)
    ensures ProjectById(st, id).None? ==> out == Reply(st, 500, InternalError)
    ensures out.resp.status == 200 <==>
              ProjectById(st, id).Some? && (status.None? || ParseStatus(status.value).Some?)
    ensures out.resp.status == 200 ==>
              && out.resp.body.ProjectRow?
              && var i := ProjectById(st, id).value;
                 var p := st.projects[i];
                 var p' := out.resp.body.project;
                 && out.st == st.(projects := st.projects[i := p'])
                 && p'.status == (if status.Some? then ParseStatus(status.value).value else p.status)
                 && p' == p.(status := p'.status, updatedAt := nowMs)
    ensures Valid(st) ==> Valid(out.st)
  {
    if status.Some? && ParseStatus(status.value).None? then Reply(st, 500, InternalError)
    else
      match ProjectById(st, id)
      case None => Reply(st, 500, InternalError)
      case Some(i) =>
        var p := st.projects[i];
        var p' := p.(status := if status.Some? then ParseStatus(status.value).value else p.status,
                     updatedAt := nowMs);
        var st' := st.(projects := st.projects[i := p']);
        assert Valid(st) ==> Valid(st') by {
          if Valid(st) { ProjectRowKeepsValid(st, i, p'); }
        }
        Step(st', Response(200, ProjectRow(p')))
  }

  /** Every status is reachable from every other in one request, and only the
      targeted project changes. */
  lemma AnyStatusReachable(st: State, id: Id, target: ProjectStatus, nowMs: int)
    requires ProjectById(st, id).Some?
    ensures var out := UpdateProjectStatus(st, id, Some(StatusName(target)), nowMs);
            var i := ProjectById(st, id).value;
            && out.resp.status == 200
            && out.st.projects[i].status == target
            && |out.st.projects| == |st.projects|
            && forall k :: 0 <= k < |st.projects| && k != i ==> out.st.projects[k] == st.projects[k]
  {
  }

  /** Two status updates in a row leave the project as the second alone would. */
  lemma {:induction false} LastStatusWins(st: State, id: Id, s1: ProjectStatus, s2: ProjectStatus, t1: int, t2: int)
    requires ProjectById(st, id).Some?
    ensures UpdateProjectStatus(UpdateProjectStatus(st, id, Some(StatusName(s1)), t1).st, id, Some(StatusName(s2)), t2).st
            == UpdateProjectStatus(st, id, Some(StatusName(s2)), t2).st
  {
    var i := ProjectById(st, id).value;
    var mid := st.(projects := st.projects[i := st.projects[i].(status := s1, updatedAt := t1)]);
    assert UpdateProjectStatus(st, id, Some(StatusName(s1)), t1).st == mid;
    ProjectByIdAt(mid, id, i);
  }

  /** `deleteProject`: a missing project makes the delete throw (500);
      otherwise the project goes, with its entries. Their files stay on disk. */
  function DeleteProject(st: State, id: Id): (out: Step)
    ensures ProjectById(st, id).None? ==> out == Reply(st, 500, InternalError)
    ensures ProjectById(st, id).Some? ==>
              out == Reply(DeleteProjectCascade(st, id), 200, "Project deleted successfully")
    ensures out.st.disk == st.disk
    ensures out.resp.status == 200 ==>
              id !in ProjectIds(out.st) && forall e :: e in out.st.entries ==> e.projectId != id
    ensures forall p :: p in st.projects && p.id != id ==> p in out.st.projects
    ensures forall e :: e in st.entries && e.projectId != id ==> e in out.st.entries
    ensures Valid(st) ==> Valid(out.st)
  {
    DeleteProjectCascadeValid(st, id);
    match ProjectById(st, id)
    case None => Reply(st, 500, InternalError)
    case Some(_) =>
      Reply(DeleteProjectCascade(st, id), 200, "Project deleted successfully")
  }

  /** Deleting a project just created restores the store exactly. */
  lemma {:induction false} CreateThenDeleteProject(st: State, title: string, description: Option<string>, clientId: Id, newId: Id, nowMs: int)
    requires Valid(st) && newId !in ProjectIds(st)
    requires CreateProject(st, title, description, clientId, newId, nowMs).resp.status == 201
    ensures DeleteProject(CreateProject(st, title, description, clientId, newId, nowMs).st, newId).st == st
  {
    var st1 := CreateProject(st, title, description, clientId, newId, nowMs).st;
    var p := st1.projects[|st.projects|];
    assert st1.projects == st.projects + [p];
    var keep := (q: Project) => q.id != newId;
    forall i | 0 <= i < |st.projects| ensures keep(st.projects[i]) {
      assert st.projects[i] in st.projects;
    }
    FilterAppend(st.projects, [p], keep);
    FilterAll(st.projects, keep);
    assert Filter([p], keep) == [];
    var keepE := (e: Entry) => e.projectId != newId;
    FilterAll(st.entries, keepE);
    assert ProjectById(st1, newId).Some? by {
      assert st1.projects[|st.projects|].id == newId;
    }
  }
}
