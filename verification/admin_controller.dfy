/** The client-management and admin-profile handlers (all behind the ADMIN gate). */
module AdminController {
  import opened Common
  import opened Secrets
  import opened Store
  import opened Http
  import opened Sorting

  const NameTaken: string := "Name already taken"
  const PinTaken: string := "PIN already taken"

  function ClientCreatedAt(c: Client): int { c.createdAt }

  /** `getAllClients`: every client row, newest first (the rows are sent as
      stored, PIN hashes included). */
  function GetAllClients(st: State): (out: Step)
    ensures out.st == st && out.resp.status == 200 && out.resp.body.ClientList?
    ensures SortedDesc(out.resp.body.clients, ClientCreatedAt)
    ensures multiset(out.resp.body.clients) == multiset(st.clients)
  {
    Step(st, Response(200, ClientList(SortDesc(st.clients, ClientCreatedAt))))
  }

  /** Some client other than `except` has a digest that `pin` matches. */
  predicate PinInUse(clients: seq<Client>, pin: string, except: Option<Id>) {
    exists k :: 0 <= k < |clients| && Some(clients[k].id) != except && Matches(pin, clients[k].pinHash)
  }

  /** `createClient`: the username is checked first, then the PIN against every
      client; only then is the client created, unblocked, answering `{id, username}`.
      A missing username makes the lookup throw, and a missing PIN makes the
      comparison or the hashing throw, both answered 500. */
  function CreateClient(st: State, username: Option<string>, pin: Option<string>, newId: Id, nowMs: int): (out: Step)
    requires newId !in ClientIds(st)
    ensures username.None? ==> out == Reply(st, 500, InternalError)
    ensures username.Some? && ClientByUsername(st, username.value).Some? ==> out == Reply(st, 400, NameTaken)
    ensures username.Some? && ClientByUsername(st, username.value).None? && pin.None? ==>
              out == Reply(st, 500, InternalError)
    ensures username.Some? && ClientByUsername(st, username.value).None? &&
            pin.Some? && PinInUse(st.clients, pin.value, None) ==>
              out == Reply(st, 400, PinTaken)
    ensures out.resp.status == 201 <==>
              && username.Some? && pin.Some?
              && ClientByUsername(st, username.value).None? && !PinInUse(st.clients, pin.value, None)
    ensures out.resp.status == 201 ==>
              && out.resp.body == ClientCreated(newId, username.value)
              && out.st == st.(clients := st.clients + [Client(newId, username.value, HashSecret(pin.value), false, nowMs)])
    ensures Valid(st) ==> Valid(out.st)
  {
    match username
    case None => Reply(st, 500, InternalError)
    case Some(name) =>
      if ClientByUsername(st, name).Some? then Reply(st, 400, NameTaken)
      else
        match pin
        case None => Reply(st, 500, InternalError)
        case Some(p) =>
          if PinInUse(st.clients, p, None) then Reply(st, 400, PinTaken)
          else
            var c := Client(newId, name, HashSecret(p), false, nowMs);
            AddClientValid(st, c, p);
            Step(st.(clients := st.clients + [c]), Response(201, ClientCreated(newId, name)))
  }

  lemma AddClientValid(st: State, c: Client, pin: string)
    requires c.id !in ClientIds(st)
    requires ClientByUsername(st, c.username).None?
    requires !PinInUse(st.clients, pin, None)
    requires c.pinHash == HashSecret(pin)
    ensures Valid(st) ==> Valid(st.(clients := st.clients + [c]))
  {
    if Valid(st) {
      var st' := st.(clients := st.clients + [c]);
      var s := st'.clients;
      assert ClientIds(st) <= ClientIds(st');
      forall i | 0 <= i < |st.clients|
        ensures st.clients[i].id != c.id && st.clients[i].username != c.username
        ensures forall x :: Matches(x, st.clients[i].pinHash) ==> !Matches(x, c.pinHash)
      {
        assert st.clients[i] in st.clients;
        MatchesOwnDigestOnly(pin, pin);
      }
      assert forall i :: 0 <= i < |st.clients| ==> s[i] == st.clients[i];
      assert ProjectsOwned(st');
    }
  }

  /** Adding a client never lets one PIN open two accounts. */
  lemma CreateClientKeepsPinsUnique(st: State, username: string, pin: string, newId: Id, nowMs: int)
    requires Valid(st) && newId !in ClientIds(st)
    ensures PinsUnique(CreateClient(st, Some(username), Some(pin), newId, nowMs).st.clients)
    ensures forall i :: 0 <= i < |st.clients| && Matches(pin, st.clients[i].pinHash) ==>
              CreateClient(st, Some(username), Some(pin), newId, nowMs).resp.status == 400
  {
  }

  /** `resetClientPin`: the PIN scan skips the client itself, so resetting to
      its own current PIN succeeds; a missing client fails only at the update. */
  function ResetClientPin(st: State, id: Id, newPin: Option<string>): (out: Step)
    ensures newPin.None? ==> out == Reply(st, 500, InternalError)
    ensures newPin.Some? && PinInUse(st.clients, newPin.value, Some(id)) ==> out == Reply(st, 400, PinTaken)
    ensures newPin.Some? && !PinInUse(st.clients, newPin.value, Some(id)) && ClientById(st, id).None? ==>
              out == Reply(st, 500, InternalError)
    ensures out.resp.status == 200 <==>
              newPin.Some? && !PinInUse(st.clients, newPin.value, Some(id)) && ClientById(st, id).Some?
    ensures out.resp.status == 200 ==>
              var i := ClientById(st, id).value;
              out.st == st.(clients := st.clients[i := st.clients[i].(pinHash := HashSecret(newPin.value))])
    ensures Valid(st) ==> Valid(out.st)
  {
    match newPin
    case None => Reply(st, 500, InternalError)
    case Some(p) =>
      if PinInUse(st.clients, p, Some(id)) then Reply(st, 400, PinTaken)
      else
        match ClientById(st, id)
        case None => Reply(st, 500, InternalError)
        case Some(i) =>
          var c := st.clients[i].(pinHash := HashSecret(p));
          ResetPinValid(st, i, p);
          Reply(st.(clients := st.clients[i := c]), 200, "Client PIN updated successfully")
  }

  lemma ResetPinValid(st: State, i: nat, newPin: string)
    requires i < |st.clients|
    requires !PinInUse(st.clients, newPin, Some(st.clients[i].id))
    ensures Valid(st) ==> Valid(st.(clients := st.clients[i := st.clients[i].(pinHash := HashSecret(newPin))]))
  {
    if Valid(st) {
      var st' := st.(clients := st.clients[i := st.clients[i].(pinHash := HashSecret(newPin))]);
      assert ClientIds(st') == ClientIds(st) by {
        forall k | 0 <= k < |st.clients| ensures st'.clients[k].id == st.clients[k].id { }
        assert forall x :: x in ClientIds(st) ==> exists k :: 0 <= k < |st.clients| && st.clients[k].id == x;
        assert forall x :: x in ClientIds(st') ==> exists k :: 0 <= k < |st'.clients| && st'.clients[k].id == x;
      }
      forall j | 0 <= j < |st.clients| && j != i
        ensures forall x :: Matches(x, st.clients[j].pinHash) ==> !Matches(x, HashSecret(newPin))
      {
        assert st.clients[j].id != st.clients[i].id;
      }
    }
  }

  /** Resetting a client's PIN to the PIN it already has is accepted. */
  lemma ResetToOwnPin(st: State, id: Id, pin: string)
    requires Valid(st)
    requires ClientById(st, id).Some?
    requires Matches(pin, st.clients[ClientById(st, id).value].pinHash)
    ensures ResetClientPin(st, id, Some(pin)).resp.status == 200
  {
    var i := ClientById(st, id).value;
    forall k | 0 <= k < |st.clients| && Some(st.clients[k].id) != Some(id)
      ensures !Matches(pin, st.clients[k].pinHash)
    {
      assert k != i;
    }
  }

  /** `blockClient` / `unblockClient`: sets `isBlocked` of that client only;
      a missing client makes the update throw (500). */
  function SetBlocked(st: State, id: Id, blocked: bool): (out: Step)
    ensures ClientById(st, id).None? ==> out == Reply(st, 500, InternalError)
    ensures ClientById(st, id).Some? ==>
              && out.resp.status == 200
              && var i := ClientById(st, id).value;
                 out.st == st.(clients := st.clients[i := st.clients[i].(isBlocked := blocked)])
    ensures Valid(st) ==> Valid(out.st)
  {
    match ClientById(st, id)
    case None => Reply(st, 500, InternalError)
    case Some(i) =>
      var st' := st.(clients := st.clients[i := st.clients[i].(isBlocked := blocked)]);
      assert Valid(st) ==> Valid(st') by {
        if Valid(st) { ClientRowKeepsValid(st, i, st.clients[i].(isBlocked := blocked)); }
      }
      Reply(st', 200, if blocked then "Client blocked successfully" else "Client unblocked successfully")
  }

  function BlockClient(st: State, id: Id): (out: Step)
    ensures ClientById(st, id).None? ==> out == Reply(st, 500, InternalError)
    ensures ClientById(st, id).Some? ==>
              var i := ClientById(st, id).value;
              && out.resp == Response(200, Message("Client blocked successfully"))
              && |out.st.clients| == |st.clients|
              && out.st.clients[i].isBlocked
              && out.st.clients[i].(isBlocked := st.clients[i].isBlocked) == st.clients[i]
              && (forall k :: 0 <= k < |st.clients| && k != i ==> out.st.clients[k] == st.clients[k])
              && out.st.(clients := st.clients) == st
    ensures Valid(st) ==> Valid(out.st)
  {
    SetBlocked(st, id, true)
  }

  function UnblockClient(st: State, id: Id): (out: Step)
    ensures ClientById(st, id).None? ==> out == Reply(st, 500, InternalError)
    ensures ClientById(st, id).Some? ==>
              var i := ClientById(st, id).value;
              && out.resp == Response(200, Message("Client unblocked successfully"))
              && |out.st.clients| == |st.clients|
              && !out.st.clients[i].isBlocked
              && out.st.clients[i].(isBlocked := st.clients[i].isBlocked) == st.clients[i]
              && (forall k :: 0 <= k < |st.clients| && k != i ==> out.st.clients[k] == st.clients[k])
              && out.st.(clients := st.clients) == st
    ensures Valid(st) ==> Valid(out.st)
  {
    SetBlocked(st, id, false)
  }

  /** Blocking and unblocking are idempotent, and never touch another client. */
  lemma BlockIdempotent(st: State, id: Id)
    requires ClientIdsUnique(st.clients)
    ensures BlockClient(BlockClient(st, id).st, id).st == BlockClient(st, id).st
    ensures UnblockClient(UnblockClient(st, id).st, id).st == UnblockClient(st, id).st
    ensures ClientById(st, id).Some? ==>
              forall k :: 0 <= k < |st.clients| && st.clients[k].id != id ==>
                BlockClient(st, id).st.clients[k] == st.clients[k]
  {
    match ClientById(st, id)
    case None =>
    case Some(i) =>
      var once := st.(clients := st.clients[i := st.clients[i].(isBlocked := true)]);
      ClientByIdAt(once, id, i);
      var once' := st.(clients := st.clients[i := st.clients[i].(isBlocked := false)]);
      ClientByIdAt(once', id, i);
  }

  /** One attempted `fs.unlink` and whether it removed the file. */
  datatype Unlink = Unlink(path: string, removed: bool)

  /** Attempts to unlink every path in order. An attempt fails when the file
      is not on disk or the filesystem refuses (`fails`); a failure is only
      logged and the loop goes on. */
  function UnlinkAll(disk: set<string>, paths: seq<string>, fails: set<string>): (r: (set<string>, seq<Unlink>))
    ensures |r.1| == |paths|
    ensures forall i :: 0 <= i < |paths| ==> r.1[i].path == paths[i]
    ensures r.0 == disk - (set p | p in paths && p !in fails)
  {
    if |paths| == 0 then (disk, [])
    else
      var p := paths[0];
      var ok := p in disk && p !in fails;
      var rest := UnlinkAll(if ok then disk - {p} else disk, paths[1..], fails);
      assert (set q | q in paths && q !in fails) ==
             (if p !in fails then {p} else {}) + (set q | q in paths[1..] && q !in fails);
      (rest.0, [Unlink(p, ok)] + rest.1)
  }

  /** The files of all entries of all projects of `clientId`, in table order
      (the `findMany` that runs before the delete). */
  function ClientFileUrls(st: State, clientId: Id): (urls: seq<string>)
    ensures forall e :: e in st.entries && e.projectId in ProjectsOf(st, clientId) ==> e.fileUrl in urls
    ensures forall i :: 0 <= i < |urls| ==>
              exists e :: e in st.entries && e.projectId in ProjectsOf(st, clientId) && e.fileUrl == urls[i]
  {
    var owned := ProjectsOf(st, clientId);
    var es := Filter(st.entries, (e: Entry) => e.projectId in owned);
    var urls := seq(|es|, i requires 0 <= i < |es| => es[i].fileUrl);
    assert forall e :: e in st.entries && e.projectId in owned ==> e.fileUrl in urls by {
      forall e | e in st.entries && e.projectId in owned ensures e.fileUrl in urls {
        var k :| 0 <= k < |st.entries| && st.entries[k] == e;
        assert e in es;
        var j :| 0 <= j < |es| && es[j] == e;
        assert urls[j] == e.fileUrl;
      }
    }
    assert forall i :: 0 <= i < |urls| ==> es[i] in st.entries && es[i].projectId in owned;
    urls
  }

  datatype Deletion = Deletion(step: Step, unlinks: seq<Unlink>)

  /** `deleteClient`: collect the files, delete the client row (cascading to
      its projects and entries), then try to unlink every collected file.
      Once the row is gone the answer is success whatever the unlinks did. */
  function DeleteClient(st: State, id: Id, fails: set<string>): (out: Deletion)
    ensures ClientById(st, id).None? ==>
              out == Deletion(Step(st, Response(500, Message("Error deleting client"))), [])
    ensures ClientById(st, id).Some? ==>
              && out.step.resp.status == 200
              && |out.unlinks| == |ClientFileUrls(st, id)|
              && (forall i :: 0 <= i < |out.unlinks| ==> out.unlinks[i].path == ClientFileUrls(st, id)[i])
              && out.step.st == DeleteClientCascade(st, id).(
                   disk := st.disk - (set p | p in ClientFileUrls(st, id) && p !in fails))
    ensures Valid(st) ==> Valid(out.step.st)
  {
    match ClientById(st, id)
    case None => Deletion(Step(st, Response(500, Message("Error deleting client"))), [])
    case Some(_) =>
      var urls := ClientFileUrls(st, id);
      var st' := DeleteClientCascade(st, id);
      var (disk', log) := UnlinkAll(st'.disk, urls, fails);
      DeleteClientCascadeValid(st, id);
      Deletion(Step(st'.(disk := disk'),
                    Response(200, Message("Client and all associated projects/files deleted successfully"))), log)
  }

  /** After deleting a client nothing of it is left: no client row, no project
      of it, no entry of such a project; and every one of its files that the
      filesystem did not refuse is gone from disk. */
  lemma DeleteClientRemovesEverything(st: State, id: Id, fails: set<string>)
    requires Valid(st) && ClientById(st, id).Some?
    ensures var st' := DeleteClient(st, id, fails).step.st;
            && id !in ClientIds(st')
            && (forall p :: p in st'.projects ==> p.clientId != id)
            && (forall e :: e in st'.entries ==> e.projectId !in ProjectsOf(st, id))
            && (forall e :: e in st.entries && e.projectId in ProjectsOf(st, id) && e.fileUrl !in fails ==>
                  e.fileUrl !in st'.disk)
  {
    DeleteClientCascadeValid(st, id);
  }

  /** `updateAdminProfile`: only the non-empty fields change, on the admin the
      token names; an email already used by another admin makes the update
      throw (500). */
  function UpdateAdminProfile(st: State, adminId: Id, email: string, newPassword: string): (out: Step)
    ensures AdminById(st, adminId).None? ==> out == Reply(st, 500, "Error updating profile")
    ensures var i := AdminById(st, adminId);
            i.Some? && email != "" && (exists k :: 0 <= k < |st.admins| && k != i.value && st.admins[k].email == email) ==>
              out == Reply(st, 500, "Error updating profile")
    ensures out.resp.status == 200 <==>
              && AdminById(st, adminId).Some?
              && !(email != "" && exists k :: 0 <= k < |st.admins| && k != AdminById(st, adminId).value && st.admins[k].email == email)
    ensures out.resp.status == 200 ==>
              && AdminById(st, adminId).Some?
              && var i := AdminById(st, adminId).value;
                 var a := st.admins[i];
                 var a' := a.(email := if email != "" then email else a.email,
                              passwordHash := if newPassword != "" then HashSecret(newPassword) else a.passwordHash);
                 && out.st == st.(admins := st.admins[i := a'])
                 && out.resp.body == ProfileUpdated("Profile updated successfully", a'.email)
    ensures out.resp.status == 200 || out == Reply(st, 500, "Error updating profile")
    ensures Valid(st) ==> Valid(out.st)
  {
    match AdminById(st, adminId)
    case None => Reply(st, 500, "Error updating profile")
    case Some(i) =>
      if email != "" && (exists k :: 0 <= k < |st.admins| && k != i && st.admins[k].email == email) then
        Reply(st, 500, "Error updating profile")
      else
        var a := st.admins[i];
        var a' := a.(email := if email != "" then email else a.email,
                     passwordHash := if newPassword != "" then HashSecret(newPassword) else a.passwordHash);
        Step(st.(admins := st.admins[i := a']), Response(200, ProfileUpdated("Profile updated successfully", a'.email)))
  }
}
