/** The HTTP surface: which handler a request under `/api` reaches, which
    `authenticate` gates and which upload middleware run before it, and the
    error handler behind the upload middleware. Paths are given as their
    segments after `/api`, e.g. `["projects", "p1", "entries"]`. */
module Routes {
  import opened Common
  import opened Store
  import opened Tokens
  import opened Http
  import opened ErrorHandler
  import opened Upload
  import opened AuthMiddleware
  import AdminController
  import ProjectController
  import EntryController

  datatype HttpMethod = GET | POST | PUT | PATCH | DELETE

  /** Where a request ends up. `AdminUnmatched` is a path under `/api/admin`
      that no admin route matches: the router-level gate still runs first.
      `AuthRouter` is anything under `/api/auth`, whose route table is not
      part of this model. */
  datatype Endpoint =
    | ListClients | AddClient | ResetPin(id: Id) | Block(id: Id) | Unblock(id: Id)
    | RemoveClient(id: Id) | UpdateProfile
    | AddProject | ListProjects | SetStatus(id: Id) | RemoveProject(id: Id)
    | MyProjects | ProjectDetailOf(id: Id)
    | AddEntries(id: Id) | ListEntries(id: Id) | EditEntry(id: Id) | RemoveEntry(id: Id)
    | AdminUnmatched | NoRoute | AuthRouter

  /** A `:id` placeholder matches one non-empty segment. */
  predicate Param(seg: string) { seg != "" }

  /** The admin router's table, on the segments after `admin`. */
  function AdminRoute(m: HttpMethod, rest: seq<string>): Endpoint {
    if m == GET && rest == ["clients"] then ListClients
    else if m == POST && rest == ["clients"] then AddClient
    else if m == PATCH && |rest| == 3 && rest[0] == "clients" && Param(rest[1]) && rest[2] == "reset-pin" then ResetPin(rest[1])
    else if m == PATCH && |rest| == 3 && rest[0] == "clients" && Param(rest[1]) && rest[2] == "block" then Block(rest[1])
    else if m == PATCH && |rest| == 3 && rest[0] == "clients" && Param(rest[1]) && rest[2] == "unblock" then Unblock(rest[1])
    else if m == DELETE && |rest| == 2 && rest[0] == "clients" && Param(rest[1]) then RemoveClient(rest[1])
    else if m == PATCH && rest == ["profile"] then UpdateProfile
    else AdminUnmatched
  }

  /** The project router's table, in declaration order. */
  function ProjectRoute(m: HttpMethod, path: seq<string>): Option<Endpoint> {
    if m == POST && path == ["projects"] then Some(AddProject)
    else if m == GET && path == ["projects"] then Some(ListProjects)
    else if m == PATCH && |path| == 3 && path[0] == "projects" && Param(path[1]) && path[2] == "status" then Some(SetStatus(path[1]))
    else if m == DELETE && |path| == 2 && path[0] == "projects" && Param(path[1]) then Some(RemoveProject(path[1]))
    else if m == GET && path == ["my-projects"] then Some(MyProjects)
    else if m == GET && |path| == 2 && path[0] == "projects" && Param(path[1]) then Some(ProjectDetailOf(path[1]))
    else None
  }

  /** The entry router's table, in declaration order. */
  function EntryRoute(m: HttpMethod, path: seq<string>): Option<Endpoint> {
    if m == POST && |path| == 3 && path[0] == "projects" && Param(path[1]) && path[2] == "entries" then Some(AddEntries(path[1]))
    else if m == GET && |path| == 3 && path[0] == "projects" && Param(path[1]) && path[2] == "entries" then Some(ListEntries(path[1]))
    else if m == PATCH && |path| == 3 && path[0] == "projects" && path[1] == "entries" && Param(path[2]) then Some(EditEntry(path[2]))
    else if m == DELETE && |path| == 3 && path[0] == "projects" && path[1] == "entries" && Param(path[2]) then Some(RemoveEntry(path[2]))
    else None
  }

  /** The mount order of the application: `/api/auth`, `/api/admin`, then the
      project router and the entry router both at `/api`; the first match wins. */
  function Resolve(m: HttpMethod, path: seq<string>): (ep: Endpoint)
    ensures ep.AuthRouter? <==> |path| >= 1 && path[0] == "auth"
    ensures |path| >= 1 && path[0] == "admin" ==>
              ep in {ListClients, AddClient, UpdateProfile, AdminUnmatched} || ep.ResetPin? || ep.Block? || ep.Unblock? || ep.RemoveClient?
    ensures ep == AdminUnmatched ==> |path| >= 1 && path[0] == "admin"
  {
    if |path| >= 1 && path[0] == "auth" then AuthRouter
    else if |path| >= 1 && path[0] == "admin" then AdminRoute(m, path[1..])
    else match ProjectRoute(m, path)
      case Some(ep) => ep
      case None => EntryRoute(m, path).GetOr(NoRoute)
  }

  /** The `authenticate` middlewares in front of each handler, in order: the
      admin router's own gate, the route's gates, none for an unknown path. */
  function Gates(ep: Endpoint): (gs: seq<Option<Role>>)
    ensures ep.NoRoute? || ep.AuthRouter? <==> |gs| == 0
  {
    match ep
    case ListClients => [Some(ADMIN)]
    case AddClient => [Some(ADMIN)]
    case ResetPin(_) => [Some(ADMIN)]
    case Block(_) => [Some(ADMIN)]
    case Unblock(_) => [Some(ADMIN)]
    case RemoveClient(_) => [Some(ADMIN)]
    case UpdateProfile => [Some(ADMIN), Some(ADMIN)]
    case AdminUnmatched => [Some(ADMIN)]
    case AddProject => [Some(ADMIN)]
    case ListProjects => [Some(ADMIN)]
    case SetStatus(_) => [Some(ADMIN)]
    case RemoveProject(_) => [Some(ADMIN)]
    case MyProjects => [Some(CLIENT)]
    case ProjectDetailOf(_) => [None]
    case AddEntries(_) => [Some(ADMIN)]
    case ListEntries(_) => [None]
    case EditEntry(_) => [Some(ADMIN)]
    case RemoveEntry(_) => [Some(ADMIN)]
    case NoRoute => []
    case AuthRouter => []
  }

  /** Handlers that only read the store. */
  predicate ReadOnly(ep: Endpoint) {
    match ep
    case ListClients | ListProjects | MyProjects | AdminUnmatched | NoRoute | AuthRouter => true
    case ProjectDetailOf(_) | ListEntries(_) => true
    case _ => false
  }

  /** Every handler that can change the store sits behind an ADMIN gate. */
  lemma WritersNeedAdmin(ep: Endpoint)
    ensures !ReadOnly(ep) ==> Some(ADMIN) in Gates(ep)
    ensures ReadOnly(ep) && Gates(ep) != [] ==> Gates(ep) == [Some(ADMIN)] || Gates(ep) == [Some(CLIENT)] || Gates(ep) == [None]
  {
  }

  /** A request: method, path after `/api`, the Authorization header, the
      string fields of its JSON or form body, and its multipart file parts
      (none for a request that is not multipart). */
  datatype Request = Request(verb: HttpMethod, path: seq<string>, authorization: Option<string>,
                             body: map<string, string>, parts: seq<Part>)

  /** What the outside world supplies: the clock, one random number per file
      part, database ids not in use, and the paths the filesystem refuses to
      unlink. */
  datatype Env = Env(nowMs: nat, rands: seq<nat>, ids: seq<Id>, fails: set<string>)

  predicate EnvFits(st: State, req: Request, env: Env) {
    && |env.rands| == |req.parts|
    && |env.ids| >= 1 && |env.ids| >= |req.parts|
    && (forall i :: 0 <= i < |env.ids| ==>
          env.ids[i] !in ClientIds(st) && env.ids[i] !in ProjectIds(st) && env.ids[i] !in EntryIds(st))
    && (forall i, j :: 0 <= i < j < |env.ids| ==> env.ids[i] != env.ids[j])
  }

  /** A body field the handler only tests for truthiness (`if (email)`,
      `description || ''`); a missing one reads as the empty string. */
  function Field(body: map<string, string>, k: string): string {
    if k in body then body[k] else ""
  }

  /** A body field whose absence (`undefined`) the handler does not test for. */
  function OptField(body: map<string, string>, k: string): (v: Option<string>)
    ensures v.Some? <==> k in body
  {
    if k in body then Some(body[k]) else None
  }

  /** The entry writes first run `upload.array('media', 20)`; an upload error
      skips the handler and reaches the error handler, which tests for
      `marker`, with the store as it was. `req.file` is never set by
      `upload.array`, so an edit takes the first uploaded file, if any. */
  function UploadThen(marker: string, st: State, ep: Endpoint, req: Request, env: Env): (out: Step)
    requires EnvFits(st, req, env)
    requires ep.AddEntries? || ep.EditEntry?
    ensures var u := ReceiveMedia(req.parts, env.nowMs, env.rands, st.disk);
            u.Aborted? ==> out == Step(st, HandleErrorWith(marker, u.err))
    ensures var u := ReceiveMedia(req.parts, env.nowMs, env.rands, st.disk);
            u.Received? ==> out.st.disk == u.disk
    ensures Valid(st) ==> Valid(out.st)
  {
    var u := ReceiveMedia(req.parts, env.nowMs, env.rands, st.disk);
    match u
    case Aborted(err) => Step(st, HandleErrorWith(marker, err))
    case Received(files, disk) =>
      var st' := st.(disk := disk);
      var b := req.body;
      ReceivedFits(st, req, env, |files|, disk);
      if ep.AddEntries? then
        EntryController.CreateProjectEntry(st', ep.id, Field(b, "description"), Field(b, "category"),
                                           files, env.ids[..|files|], env.nowMs)
      else
        EntryController.UpdateProjectEntry(st', ep.id, Field(b, "description"), Field(b, "category"),
                                           EntryController.ChosenFile(None, files))
  }

  /** The ids the environment supplies cover the stored files and are fresh
      in the store with its new disk, which stays valid. */
  lemma ReceivedFits(st: State, req: Request, env: Env, n: nat, disk: set<string>)
    requires EnvFits(st, req, env) && n <= |req.parts|
    ensures n <= |env.ids|
    ensures EntryController.FreshIds(st.(disk := disk), env.ids[..n])
    ensures Valid(st) ==> Valid(st.(disk := disk))
  {
    var st' := st.(disk := disk);
    assert EntryIds(st') == EntryIds(st);
  }

  /** The admin router's handlers; `user` is `req.user`. */
  function HandleAdmin(st: State, ep: Endpoint, user: Claims, req: Request, env: Env): (out: Step)
    requires EnvFits(st, req, env)
    requires ep in {ListClients, AddClient, UpdateProfile, AdminUnmatched} || ep.ResetPin? || ep.Block? || ep.Unblock? || ep.RemoveClient?
    ensures ReadOnly(ep) ==> out.st == st
    ensures Valid(st) ==> Valid(out.st)
  {
    var b := req.body;
    match ep
    case ListClients => AdminController.GetAllClients(st)
    case AddClient =>
      var newId := env.ids[0];
      assert newId !in ClientIds(st);
      AdminController.CreateClient(st, OptField(b, "username"), OptField(b, "pin"), newId, env.nowMs)
    case ResetPin(id) => AdminController.ResetClientPin(st, id, OptField(b, "newPin"))
    case Block(id) => AdminController.BlockClient(st, id)
    case Unblock(id) => AdminController.UnblockClient(st, id)
    case RemoveClient(id) => AdminController.DeleteClient(st, id, env.fails).step
    case UpdateProfile => AdminController.UpdateAdminProfile(st, user.id, Field(b, "email"), Field(b, "newPassword"))
    case AdminUnmatched => Step(st, Response(404, RouteNotFound))
  }

  /** The project and entry routers' handlers. */
  function HandleProjects(marker: string, st: State, ep: Endpoint, user: Claims, req: Request, env: Env): (out: Step)
    requires EnvFits(st, req, env)
    ensures ReadOnly(ep) ==> out.st == st
    ensures Valid(st) ==> Valid(out.st)
  {
    if ReadOnly(ep) then ReadProjects(st, ep, user) else WriteProjects(marker, st, ep, req, env)
  }

  /** The project and entry routes that only read. */
  function ReadProjects(st: State, ep: Endpoint, user: Claims): (out: Step)
    ensures out.st == st
  {
    match ep
    case ListProjects => ProjectController.GetAllProjects(st)
    case MyProjects => ProjectController.GetMyProjects(st, user.id)
    case ProjectDetailOf(id) => ProjectController.GetProjectDetail(st, id, user)
    case ListEntries(id) => EntryController.GetProjectEntries(st, id, user)
    case _ => Step(st, Response(404, RouteNotFound))
  }

  /** The project and entry routes that write. */
  function WriteProjects(marker: string, st: State, ep: Endpoint, req: Request, env: Env): (out: Step)
    requires EnvFits(st, req, env)
    ensures Valid(st) ==> Valid(out.st)
  {
    var b := req.body;
    match ep
    case AddProject =>
      ProjectController.CreateProject(st, Field(b, "title"), OptField(b, "description"), Field(b, "clientId"), env.ids[0], env.nowMs)
    case SetStatus(id) => ProjectController.UpdateProjectStatus(st, id, OptField(b, "status"), env.nowMs)
    case RemoveProject(id) => ProjectController.DeleteProject(st, id)
    case AddEntries(_) => UploadThen(marker, st, ep, req, env)
    case EditEntry(_) => UploadThen(marker, st, ep, req, env)
    case RemoveEntry(id) => EntryController.DeleteProjectEntry(st, id)
    case _ => Step(st, Response(404, RouteNotFound))
  }

  /** The handler once the gates have passed. */
  function Handle(marker: string, st: State, ep: Endpoint, user: Claims, req: Request, env: Env): (out: Step)
    requires EnvFits(st, req, env)
    ensures ReadOnly(ep) ==> out.st == st
    ensures Valid(st) ==> Valid(out.st)
  {
    if ep in {ListClients, AddClient, UpdateProfile, AdminUnmatched} || ep.ResetPin? || ep.Block? || ep.Unblock? || ep.RemoveClient?
    then HandleAdmin(st, ep, user, req, env)
    else HandleProjects(marker, st, ep, user, req, env)
  }

  /** One request through the whole application, with the error handler
      testing for `marker`: resolve, run the gates (the first rejection
      answers and nothing else runs), then the handler. */
  function ServeWith(marker: string, st: State, req: Request, env: Env): (out: Option<Step>)
    requires EnvFits(st, req, env)
    ensures out.None? <==> |req.path| >= 1 && req.path[0] == "auth"
    ensures Resolve(req.verb, req.path).NoRoute? ==> out == Some(Step(st, Response(404, RouteNotFound)))
    ensures var ep := Resolve(req.verb, req.path);
            |Gates(ep)| >= 1 ==>
              var d := Chain(req.authorization, Gates(ep), st.tokens, env.nowMs);
              d.Reject? ==> out == Some(Step(st, d.resp))
    ensures out.Some? && Valid(st) ==> Valid(out.value.st)
  {
    var ep := Resolve(req.verb, req.path);
    if ep.AuthRouter? then None
    else if ep.NoRoute? then Some(Step(st, Response(404, RouteNotFound)))
    else
      match Chain(req.authorization, Gates(ep), st.tokens, env.nowMs)
      case Reject(resp) => Some(Step(st, resp))
      case Pass(user) => Some(Handle(marker, st, ep, user, req, env))
  }

  /** The application as written: its error handler tests for
      "Only images and videos". */
  function Serve(st: State, req: Request, env: Env): (out: Option<Step>)
    requires EnvFits(st, req, env)
    ensures out.None? <==> |req.path| >= 1 && req.path[0] == "auth"
    ensures Resolve(req.verb, req.path).NoRoute? ==> out == Some(Step(st, Response(404, RouteNotFound)))
    ensures var ep := Resolve(req.verb, req.path);
            |Gates(ep)| >= 1 ==>
              var d := Chain(req.authorization, Gates(ep), st.tokens, env.nowMs);
              d.Reject? ==> out == Some(Step(st, d.resp))
    ensures out.Some? && Valid(st) ==> Valid(out.value.st)
  {
    ServeWith(FileTypeMarker, st, req, env)
  }

  /** The request carries a live token of an administrator. */
  predicate AdminToken(st: State, req: Request, env: Env) {
    && HasBearerPrefix(req.authorization)
    && Verify(st.tokens, BearerToken(req.authorization.value), env.nowMs).Some?
    && Verify(st.tokens, BearerToken(req.authorization.value), env.nowMs).value.role == ADMIN
  }

  /** Nothing in the store or on disk changes unless the request carries a
      live ADMIN token. */
  lemma {:induction false} OnlyAdminsWrite(st: State, req: Request, env: Env)
    requires EnvFits(st, req, env)
    ensures var out := Serve(st, req, env);
            out.Some? && out.value.st != st ==> AdminToken(st, req, env)
  {
    var ep := Resolve(req.verb, req.path);
    var out := Serve(st, req, env);
    if out.Some? && out.value.st != st {
      WritersNeedAdmin(ep);
      var d := Chain(req.authorization, Gates(ep), st.tokens, env.nowMs);
      assert d.Pass?;
      var k :| 0 <= k < |Gates(ep)| && Gates(ep)[k] == Some(ADMIN);
      assert Authenticate(req.authorization, Some(ADMIN), st.tokens, env.nowMs).Pass?;
    }
  }

  /** A client's token opens no admin path, known or not. */
  lemma ClientBarredFromAdmin(st: State, req: Request, env: Env)
    requires EnvFits(st, req, env)
    requires |req.path| >= 1 && req.path[0] == "admin"
    requires HasBearerPrefix(req.authorization)
    requires Verify(st.tokens, BearerToken(req.authorization.value), env.nowMs).Some?
    requires Verify(st.tokens, BearerToken(req.authorization.value), env.nowMs).value.role == CLIENT
    ensures Serve(st, req, env) == Some(Step(st, Response(403, Message("Forbidden: Requires " + RoleName(ADMIN) + " role"))))
  {
  }

  /** An administrator's token does not open the client's own project list. */
  lemma AdminBarredFromMyProjects(st: State, header: Option<string>, body: map<string, string>, env: Env)
    requires EnvFits(st, Request(GET, ["my-projects"], header, body, []), env)
    requires HasBearerPrefix(header)
    requires Verify(st.tokens, BearerToken(header.value), env.nowMs).Some?
    requires Verify(st.tokens, BearerToken(header.value), env.nowMs).value.role == ADMIN
    ensures Serve(st, Request(GET, ["my-projects"], header, body, []), env)
            == Some(Step(st, Response(403, Message("Forbidden: Requires " + RoleName(CLIENT) + " role"))))
  {
  }

  /** Without a token an unknown path under `/api/admin` answers 401 rather
      than 404: the router-level gate runs before routing fails; with an
      administrator's token it is a plain 404. */
  lemma {:induction false} UnknownAdminPath(st: State, req: Request, env: Env)
    requires EnvFits(st, req, env)
    requires Resolve(req.verb, req.path) == AdminUnmatched
    ensures !HasBearerPrefix(req.authorization) ==>
              Serve(st, req, env) == Some(Step(st, Response(401, Message("Unauthorized: No token provided"))))
    ensures AdminToken(st, req, env) ==> Serve(st, req, env) == Some(Step(st, Response(404, RouteNotFound)))
  {
  }

  /** `PATCH /api/projects/entries/status` is taken by the project router's
      status route (with the project id "entries") before the entry router
      can see it. */
  lemma StatusRouteShadowsEntryEdit()
    ensures Resolve(PATCH, ["projects", "entries", "status"]) == SetStatus("entries")
    ensures EntryRoute(PATCH, ["projects", "entries", "status"]) == Some(EditEntry("status"))
  {
  }

  /** The route a handler is declared under. */
  function MethodOf(ep: Endpoint): HttpMethod {
    match ep
    case ListClients => GET
    case AddClient => POST
    case ResetPin(_) => PATCH
    case Block(_) => PATCH
    case Unblock(_) => PATCH
    case RemoveClient(_) => DELETE
    case UpdateProfile => PATCH
    case AddProject => POST
    case ListProjects => GET
    case SetStatus(_) => PATCH
    case RemoveProject(_) => DELETE
    case MyProjects => GET
    case ProjectDetailOf(_) => GET
    case AddEntries(_) => POST
    case ListEntries(_) => GET
    case EditEntry(_) => PATCH
    case RemoveEntry(_) => DELETE
    case AdminUnmatched => GET
    case NoRoute => GET
    case AuthRouter => GET
  }

  function PathOf(ep: Endpoint): seq<string> {
    match ep
    case ListClients => ["admin", "clients"]
    case AddClient => ["admin", "clients"]
    case ResetPin(id) => ["admin", "clients", id, "reset-pin"]
    case Block(id) => ["admin", "clients", id, "block"]
    case Unblock(id) => ["admin", "clients", id, "unblock"]
    case RemoveClient(id) => ["admin", "clients", id]
    case UpdateProfile => ["admin", "profile"]
    case AddProject => ["projects"]
    case ListProjects => ["projects"]
    case SetStatus(id) => ["projects", id, "status"]
    case RemoveProject(id) => ["projects", id]
    case MyProjects => ["my-projects"]
    case ProjectDetailOf(id) => ["projects", id]
    case AddEntries(id) => ["projects", id, "entries"]
    case ListEntries(id) => ["projects", id, "entries"]
    case EditEntry(id) => ["projects", "entries", id]
    case RemoveEntry(id) => ["projects", "entries", id]
    case AdminUnmatched => ["admin"]
    case NoRoute => []
    case AuthRouter => ["auth"]
  }

  /** A handler endpoint with a usable id. */
  predicate Declared(ep: Endpoint) {
    && !(ep.AdminUnmatched? || ep.NoRoute? || ep.AuthRouter?)
    && ((|| ep.ResetPin? || ep.Block? || ep.Unblock? || ep.RemoveClient? || ep.SetStatus? || ep.RemoveProject?
         || ep.ProjectDetailOf? || ep.AddEntries? || ep.ListEntries? || ep.EditEntry? || ep.RemoveEntry?)
        ==> Param(ep.id))
  }

  /** Every declared route reaches its own handler, with one exception: an
      entry whose id is "status" cannot be edited, its path being taken by
      the status route. */
  lemma {:induction false} RoutesReachTheirHandlers(ep: Endpoint)
    requires Declared(ep)
    ensures ep != EditEntry("status") ==> Resolve(MethodOf(ep), PathOf(ep)) == ep
    ensures ep == EditEntry("status") ==> Resolve(MethodOf(ep), PathOf(ep)) == SetStatus("entries")
  {
    match ep
    case ResetPin(id) => assert PathOf(ep)[1..] == ["clients", id, "reset-pin"];
    case Block(id) => assert PathOf(ep)[1..] == ["clients", id, "block"];
    case Unblock(id) => assert PathOf(ep)[1..] == ["clients", id, "unblock"];
    case RemoveClient(id) => assert PathOf(ep)[1..] == ["clients", id];
    case ListClients => assert PathOf(ep)[1..] == ["clients"];
    case AddClient => assert PathOf(ep)[1..] == ["clients"];
    case UpdateProfile => assert PathOf(ep)[1..] == ["profile"];
    case _ =>
  }

  /** `/admin/profile` is gated twice by the same ADMIN check; the outcome is
      that of one gate. */
  lemma ProfileGatedOnce(header: Option<string>, reg: Registry, nowMs: nat)
    ensures Chain(header, Gates(UpdateProfile), reg, nowMs) == Chain(header, [Some(ADMIN)], reg, nowMs)
  {
    RepeatedGateSameOutcome(header, Some(ADMIN), reg, nowMs);
  }

  /** An entry upload that multer refuses reaches the error handler as
      written: nothing is stored, on disk or in the table; only an unexpected
      field or a 21st file gets 400, while a refused file type, like an
      oversized file, gets 500 and is never marked INVALID_FILE_TYPE. */
  lemma RefusedUploadChangesNothing(st: State, req: Request, env: Env)
    requires EnvFits(st, req, env)
    requires Resolve(req.verb, req.path).AddEntries? || Resolve(req.verb, req.path).EditEntry?
    requires AdminToken(st, req, env)
    requires ReceiveMedia(req.parts, env.nowMs, env.rands, st.disk).Aborted?
    ensures var err := ReceiveMedia(req.parts, env.nowMs, env.rands, st.disk).err;
            var resp := HandleErrorAsWritten(err);
            && Serve(st, req, env) == Some(Step(st, resp))
            && (resp.status == 400 <==> err.code == Some(UnexpectedFileCode))
            && (resp.status != 400 ==> resp.status == 500)
            && resp.body.error != Some("INVALID_FILE_TYPE")
    ensures var resp := HandleErrorAsWritten(ReceiveMedia(req.parts, env.nowMs, env.rands, st.disk).err);
            exists i :: && FirstOffender(Named(req.parts), "media", 20, i)
                        && (resp.status == 400 <==> Unexpected(Named(req.parts)[i], "media", 20 - i))
                        && (RefusedType(Named(req.parts)[i], "media", 20 - i) ==> resp.status == 500)
  {
    EntryWriteReachesUpload(FileTypeMarker, st, req, env);
    AsWrittenAnswers(ReceiveMedia(req.parts, env.nowMs, env.rands, st.disk).err);
    UploadErrorStatus(req.parts, "media", 20, env.nowMs, env.rands, st.disk);
  }

  /** With the marker the handler is meant to test, the same refused upload
      changes nothing and is answered 400 except for an oversized file, a
      refused file type being marked INVALID_FILE_TYPE. */
  lemma RefusedUploadAnsweredAsIntended(st: State, req: Request, env: Env)
    requires EnvFits(st, req, env)
    requires Resolve(req.verb, req.path).AddEntries? || Resolve(req.verb, req.path).EditEntry?
    requires AdminToken(st, req, env)
    requires ReceiveMedia(req.parts, env.nowMs, env.rands, st.disk).Aborted?
    ensures var err := ReceiveMedia(req.parts, env.nowMs, env.rands, st.disk).err;
            var resp := HandleError(err);
            && ServeWith(IntendedFileTypeMarker, st, req, env) == Some(Step(st, resp))
            && (resp.status == 400 <==> err.code != Some("LIMIT_FILE_SIZE"))
            && (resp.status != 400 ==> resp.status == 500)
            && (resp.body.error == Some("INVALID_FILE_TYPE") <==> err.code.None?)
    ensures var resp := HandleError(ReceiveMedia(req.parts, env.nowMs, env.rands, st.disk).err);
            exists i :: && FirstOffender(Named(req.parts), "media", 20, i)
                        && (resp.body.error == Some("INVALID_FILE_TYPE") <==> RefusedType(Named(req.parts)[i], "media", 20 - i))
                        && (RefusedType(Named(req.parts)[i], "media", 20 - i) ==>
                              resp.status == 400 && resp.body.message == FilterMessage)
                        && (resp.status == 500 <==> && Named(req.parts)[i].size > MaxFileSize
                                                    && !Unexpected(Named(req.parts)[i], "media", 20 - i)
                                                    && FileFilter(Named(req.parts)[i].mimetype, Named(req.parts)[i].originalname))
  {
    EntryWriteReachesUpload(IntendedFileTypeMarker, st, req, env);
    IntendedAnswers(ReceiveMedia(req.parts, env.nowMs, env.rands, st.disk).err);
    RefusedTypeIsBadRequest(req.parts, "media", 20, env.nowMs, env.rands, st.disk);
  }

  /** An administrator's entry upload or edit passes its gate and reaches the
      upload middleware. */
  lemma EntryWriteReachesUpload(marker: string, st: State, req: Request, env: Env)
    requires EnvFits(st, req, env)
    requires Resolve(req.verb, req.path).AddEntries? || Resolve(req.verb, req.path).EditEntry?
    requires AdminToken(st, req, env)
    ensures ServeWith(marker, st, req, env) == Some(UploadThen(marker, st, Resolve(req.verb, req.path), req, env))
  {
    var ep := Resolve(req.verb, req.path);
    assert Gates(ep) == [Some(ADMIN)];
    var d := Chain(req.authorization, Gates(ep), st.tokens, env.nowMs);
    assert d == Authenticate(req.authorization, Some(ADMIN), st.tokens, env.nowMs);
    HandleReachesUpload(marker, st, ep, d.user, req, env);
  }

  lemma HandleReachesUpload(marker: string, st: State, ep: Endpoint, user: Claims, req: Request, env: Env)
    requires EnvFits(st, req, env)
    requires ep.AddEntries? || ep.EditEntry?
    ensures Handle(marker, st, ep, user, req, env) == UploadThen(marker, st, ep, req, env)
  {
    assert !(ep in {ListClients, AddClient, UpdateProfile, AdminUnmatched});
  }
}
