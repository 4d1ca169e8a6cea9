/** The relational store behind the backend: the Admin, Client, Project and
    ProjectEntry tables, the issued-token registry and the upload directory on
    disk. Each table is a sequence in table order; Prisma's `findFirst` and
    `findUnique` return the first matching row in that order. */
module Store {
  import opened Common
  import opened Secrets
  import opened Tokens

  type Id = string

  datatype ProjectStatus = PENDING | IN_PROGRESS | DELAYED | COMPLETED

  datatype EntryCategory = TIMELINE | AGREEMENT | PAYMENT_INVOICE | HANDOVER | CERTIFICATE

  datatype FileType = IMAGE | VIDEO | PDF

  datatype Admin = Admin(
    id: Id,
    email: string,
    passwordHash: Hash,
    resetToken: Option<string>,
    resetTokenExpiry: Option<int>)       // milliseconds since the epoch

  datatype Client = Client(
    id: Id,
    username: string,
    pinHash: Hash,
    isBlocked: bool,
    createdAt: int)

  datatype Project = Project(
    id: Id,
    title: string,
    description: Option<string>,
    status: ProjectStatus,
    clientId: Id,
    createdAt: int,
    updatedAt: int)

  datatype Entry = Entry(
    id: Id,
    projectId: Id,
    description: string,
    category: Option<EntryCategory>,
    fileUrl: string,
    fileType: FileType,
    createdAt: int)

  datatype State = State(
    admins: seq<Admin>,
    clients: seq<Client>,
    projects: seq<Project>,
    entries: seq<Entry>,
    tokens: Registry,
    disk: set<string>)          // stored upload paths, e.g. "uploads/projects/1700-42.jpg"

  function StatusName(s: ProjectStatus): string {
    match s
    case PENDING => "PENDING"
    case IN_PROGRESS => "IN_PROGRESS"
    case DELAYED => "DELAYED"
    case COMPLETED => "COMPLETED"
  }

  /** The database enum's accepted spellings; anything else is refused by Prisma. */
  function ParseStatus(s: string): (r: Option<ProjectStatus>)
    ensures r.Some? ==> StatusName(r.value) == s
    ensures forall st :: s == StatusName(st) ==> r == Some(st)
  {
    if s == "PENDING" then Some(PENDING)
    else if s == "IN_PROGRESS" then Some(IN_PROGRESS)
    else if s == "DELAYED" then Some(DELAYED)
    else if s == "COMPLETED" then Some(COMPLETED)
    else None
  }

  function CategoryName(c: EntryCategory): string {
    match c
    case TIMELINE => "TIMELINE"
    case AGREEMENT => "AGREEMENT"
    case PAYMENT_INVOICE => "PAYMENT_INVOICE"
    case HANDOVER => "HANDOVER"
    case CERTIFICATE => "CERTIFICATE"
  }

  /** `VALID_CATEGORIES` of the entry controller, in its order. */
  const ValidCategories: seq<string> :=
    ["TIMELINE", "AGREEMENT", "PAYMENT_INVOICE", "HANDOVER", "CERTIFICATE"]

  /** `VALID_CATEGORIES.includes(s)` read as a category. */
  function ParseCategory(s: string): (r: Option<EntryCategory>)
    ensures r.Some? <==> s in ValidCategories
    ensures r.Some? ==> CategoryName(r.value) == s
    ensures forall c :: s == CategoryName(c) ==> r == Some(c)
  {
    if s == "TIMELINE" then Some(TIMELINE)
    else if s == "AGREEMENT" then Some(AGREEMENT)
    else if s == "PAYMENT_INVOICE" then Some(PAYMENT_INVOICE)
    else if s == "HANDOVER" then Some(HANDOVER)
    else if s == "CERTIFICATE" then Some(CERTIFICATE)
    else None
  }

  // ---------------------------------------------------------------- lookups

  function AdminById(st: State, id: Id): Option<nat> {
    IndexWhere(st.admins, (a: Admin) => a.id == id)
  }

  function AdminByEmail(st: State, email: string): Option<nat> {
    IndexWhere(st.admins, (a: Admin) => a.email == email)
  }

  function ClientById(st: State, id: Id): Option<nat> {
    IndexWhere(st.clients, (c: Client) => c.id == id)
  }

  /** The lookup finds the first row with that id. */
  lemma ClientByIdAt(st: State, id: Id, i: nat)
    requires i < |st.clients| && st.clients[i].id == id
    requires forall j :: 0 <= j < i ==> st.clients[j].id != id
    ensures ClientById(st, id) == Some(i)
  {
  }

  function ClientByUsername(st: State, username: string): Option<nat> {
    IndexWhere(st.clients, (c: Client) => c.username == username)
  }

  function ProjectById(st: State, id: Id): Option<nat> {
    IndexWhere(st.projects, (p: Project) => p.id == id)
  }

  /** The lookup finds the first project with that id. */
  lemma ProjectByIdAt(st: State, id: Id, i: nat)
    requires i < |st.projects| && st.projects[i].id == id
    requires forall j :: 0 <= j < i ==> st.projects[j].id != id
    ensures ProjectById(st, id) == Some(i)
  {
  }

  function EntryById(st: State, id: Id): Option<nat> {
    IndexWhere(st.entries, (e: Entry) => e.id == id)
  }

  function ClientIds(st: State): set<Id> {
    set c | c in st.clients :: c.id
  }

  function ProjectIds(st: State): set<Id> {
    set p | p in st.projects :: p.id
  }

  function EntryIds(st: State): set<Id> {
    set e | e in st.entries :: e.id
  }

  /** The ids of `id`'s projects. */
  function ProjectsOf(st: State, clientId: Id): set<Id> {
    set p | p in st.projects && p.clientId == clientId :: p.id
  }

  // ------------------------------------------------------------- invariants

  predicate AdminIdsUnique(s: seq<Admin>) {
    forall i, j :: 0 <= i < j < |s| ==> s[i].id != s[j].id
  }

  predicate AdminEmailsUnique(s: seq<Admin>) {
    forall i, j :: 0 <= i < j < |s| ==> s[i].email != s[j].email
  }

  predicate ClientIdsUnique(s: seq<Client>) {
    forall i, j :: 0 <= i < j < |s| ==> s[i].id != s[j].id
  }

  /** `username` is a unique column. */
  predicate UsernamesUnique(s: seq<Client>) {
    forall i, j :: 0 <= i < j < |s| ==> s[i].username != s[j].username
  }

  /** No PIN opens two client accounts. */
  ghost predicate PinsUnique(s: seq<Client>) {
    forall i, j, pin :: 0 <= i < j < |s| && Matches(pin, s[i].pinHash) ==> !Matches(pin, s[j].pinHash)
  }

  predicate ProjectIdsUnique(s: seq<Project>) {
    forall i, j :: 0 <= i < j < |s| ==> s[i].id != s[j].id
  }

  predicate EntryIdsUnique(s: seq<Entry>) {
    forall i, j :: 0 <= i < j < |s| ==> s[i].id != s[j].id
  }

  /** Every project belongs to an existing client. */
  predicate ProjectsOwned(st: State) {
    forall i :: 0 <= i < |st.projects| ==> st.projects[i].clientId in ClientIds(st)
  }

  /** Every entry belongs to an existing project. */
  predicate EntriesAttached(st: State) {
    forall i :: 0 <= i < |st.entries| ==> st.entries[i].projectId in ProjectIds(st)
  }

  /** What the schema's unique and foreign-key constraints, together with the
      PIN check of the client handlers, guarantee of every reachable store. */
  ghost predicate Valid(st: State) {
    && AdminIdsUnique(st.admins)
    && AdminEmailsUnique(st.admins)
    && ClientIdsUnique(st.clients)
    && UsernamesUnique(st.clients)
    && PinsUnique(st.clients)
    && ProjectIdsUnique(st.projects)
    && EntryIdsUnique(st.entries)
    && ProjectsOwned(st)
    && EntriesAttached(st)
  }

  /** The empty store satisfies the invariant. */
  lemma EmptyValid(tokens: Registry, disk: set<string>)
    ensures Valid(State([], [], [], [], tokens, disk))
  {
  }

  /** Rewriting one client's row keeps the invariant when its id, username
      and PIN stay as they were. */
  lemma ClientRowKeepsValid(st: State, i: nat, c: Client)
    requires Valid(st) && i < |st.clients|
    requires c.id == st.clients[i].id && c.username == st.clients[i].username && c.pinHash == st.clients[i].pinHash
    ensures Valid(st.(clients := st.clients[i := c]))
  {
    var st' := st.(clients := st.clients[i := c]);
    assert ClientIds(st') == ClientIds(st) by {
      forall x | x in ClientIds(st) ensures x in ClientIds(st') {
        var k :| 0 <= k < |st.clients| && st.clients[k].id == x;
        assert st'.clients[k].id == x;
      }
      forall x | x in ClientIds(st') ensures x in ClientIds(st) {
        var k :| 0 <= k < |st'.clients| && st'.clients[k].id == x;
        assert st.clients[k].id == x;
      }
    }
  }

  /** Rewriting one project's row keeps the invariant when its id and owner
      stay as they were. */
  lemma ProjectRowKeepsValid(st: State, i: nat, p: Project)
    requires Valid(st) && i < |st.projects|
    requires p.id == st.projects[i].id && p.clientId == st.projects[i].clientId
    ensures Valid(st.(projects := st.projects[i := p]))
  {
    var st' := st.(projects := st.projects[i := p]);
    assert ProjectIds(st') == ProjectIds(st) by {
      forall x | x in ProjectIds(st) ensures x in ProjectIds(st') {
        var k :| 0 <= k < |st.projects| && st.projects[k].id == x;
        assert st'.projects[k].id == x;
      }
      forall x | x in ProjectIds(st') ensures x in ProjectIds(st) {
        var k :| 0 <= k < |st'.projects| && st'.projects[k].id == x;
        assert st.projects[k].id == x;
      }
    }
  }

  // ---------------------------------------------------------------- cascade

  /** Deleting a client row: the `onDelete: Cascade` foreign keys remove its
      projects and, through them, their entries. */
  function DeleteClientCascade(st: State, id: Id): (st': State)
    ensures st'.clients == Filter(st.clients, (c: Client) => c.id != id)
    ensures st'.projects == Filter(st.projects, (p: Project) => p.clientId != id)
    ensures st'.entries == Filter(st.entries, (e: Entry) => e.projectId !in ProjectsOf(st, id))
    ensures st'.admins == st.admins && st'.tokens == st.tokens && st'.disk == st.disk
  {
    var gone := ProjectsOf(st, id);
    st.(clients := Filter(st.clients, (c: Client) => c.id != id),
        projects := Filter(st.projects, (p: Project) => p.clientId != id),
        entries := Filter(st.entries, (e: Entry) => e.projectId !in gone))
  }

  /** Deleting a project row removes its entries with it. */
  function DeleteProjectCascade(st: State, id: Id): (st': State)
    ensures st'.projects == Filter(st.projects, (p: Project) => p.id != id)
    ensures st'.entries == Filter(st.entries, (e: Entry) => e.projectId != id)
    ensures st'.admins == st.admins && st'.clients == st.clients
    ensures st'.tokens == st.tokens && st'.disk == st.disk
  {
    st.(projects := Filter(st.projects, (p: Project) => p.id != id),
        entries := Filter(st.entries, (e: Entry) => e.projectId != id))
  }

  /** Filtering keeps pairwise-distinct ids pairwise distinct. */
  lemma {:induction false} FilterClientsUnique(s: seq<Client>, p: Client -> bool)
    requires ClientIdsUnique(s) && UsernamesUnique(s) && PinsUnique(s)
    ensures var r := Filter(s, p); ClientIdsUnique(r) && UsernamesUnique(r) && PinsUnique(r)
  {
    if |s| > 0 {
      FilterClientsUnique(s[1..], p);
      var r := Filter(s, p);
      var t := Filter(s[1..], p);
      if p(s[0]) {
        assert r == [s[0]] + t;
        forall j | 0 < j < |r|
          ensures r[0].id != r[j].id && r[0].username != r[j].username
          ensures forall pin :: Matches(pin, r[0].pinHash) ==> !Matches(pin, r[j].pinHash)
        {
          assert r[j] == t[j - 1];
          assert t[j - 1] in s[1..];
          var k :| 0 <= k < |s[1..]| && s[1..][k] == t[j - 1];
          assert s[k + 1] == r[j];
        }
      }
    }
  }

  lemma {:induction false} FilterProjectsUnique(s: seq<Project>, p: Project -> bool)
    requires ProjectIdsUnique(s)
    ensures ProjectIdsUnique(Filter(s, p))
  {
    if |s| > 0 {
      FilterProjectsUnique(s[1..], p);
      var r := Filter(s, p);
      var t := Filter(s[1..], p);
      if p(s[0]) {
        assert r == [s[0]] + t;
        forall j | 0 < j < |r|
          ensures r[0].id != r[j].id
        {
          assert r[j] == t[j - 1];
          assert t[j - 1] in s[1..];
        }
      }
    }
  }

  lemma {:induction false} FilterEntriesUnique(s: seq<Entry>, p: Entry -> bool)
    requires EntryIdsUnique(s)
    ensures EntryIdsUnique(Filter(s, p))
  {
    if |s| > 0 {
      FilterEntriesUnique(s[1..], p);
      var r := Filter(s, p);
      var t := Filter(s[1..], p);
      if p(s[0]) {
        assert r == [s[0]] + t;
        forall j | 0 < j < |r|
          ensures r[0].id != r[j].id
        {
          assert r[j] == t[j - 1];
          assert t[j - 1] in s[1..];
        }
      }
    }
  }

  /** The client cascade keeps the store valid and leaves no trace of the client. */
  lemma DeleteClientCascadeValid(st: State, id: Id)
    ensures Valid(st) ==> Valid(DeleteClientCascade(st, id))
    ensures id !in ClientIds(DeleteClientCascade(st, id))
    ensures forall p :: p in DeleteClientCascade(st, id).projects ==> p.clientId != id
    ensures forall e :: e in DeleteClientCascade(st, id).entries ==> e.projectId !in ProjectsOf(st, id)
  {
    var st' := DeleteClientCascade(st, id);
    if Valid(st) {
      FilterClientsUnique(st.clients, (c: Client) => c.id != id);
      FilterProjectsUnique(st.projects, (p: Project) => p.clientId != id);
      FilterEntriesUnique(st.entries, (e: Entry) => e.projectId !in ProjectsOf(st, id));
      forall i | 0 <= i < |st'.projects|
        ensures st'.projects[i].clientId in ClientIds(st')
      {
        var p := st'.projects[i];
        assert p in st.projects;
        var k :| 0 <= k < |st.projects| && st.projects[k] == p;
        var c :| c in st.clients && c.id == p.clientId;
        assert c in st'.clients;
      }
      forall i | 0 <= i < |st'.entries|
        ensures st'.entries[i].projectId in ProjectIds(st')
      {
        var e := st'.entries[i];
        assert e in st.entries;
        var k :| 0 <= k < |st.entries| && st.entries[k] == e;
        var p :| p in st.projects && p.id == e.projectId;
        assert p.clientId != id;
        assert p in st'.projects;
      }
    }
  }

  /** The project cascade keeps the store valid and leaves no entry of that project. */
  lemma DeleteProjectCascadeValid(st: State, id: Id)
    ensures Valid(st) ==> Valid(DeleteProjectCascade(st, id))
    ensures forall e :: e in DeleteProjectCascade(st, id).entries ==> e.projectId != id
    ensures id !in ProjectIds(DeleteProjectCascade(st, id))
  {
    var st' := DeleteProjectCascade(st, id);
    if Valid(st) {
      FilterProjectsUnique(st.projects, (p: Project) => p.id != id);
      FilterEntriesUnique(st.entries, (e: Entry) => e.projectId != id);
      forall i | 0 <= i < |st'.projects|
        ensures st'.projects[i].clientId in ClientIds(st')
      {
        var p := st'.projects[i];
        assert p in st.projects;
        var k :| 0 <= k < |st.projects| && st.projects[k] == p;
      }
      forall i | 0 <= i < |st'.entries|
        ensures st'.entries[i].projectId in ProjectIds(st')
      {
        var e := st'.entries[i];
        assert e in st.entries;
        var k :| 0 <= k < |st.entries| && st.entries[k] == e;
        var p :| p in st.projects && p.id == e.projectId;
        assert p in st'.projects;
      }
    }
  }
}
