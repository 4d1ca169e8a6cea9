/** The administrator's client list: per-client project figures, the search
    and status filter, the PIN form's length check, and how the list is
    updated in place after adding, blocking and deleting a client. */
module ClientsPage {
  import opened Common
  import opened Text
  import opened AdminUi
  import Store
  import ProjectsPage

  /** A client as the list shows it. */
  datatype ClientRow = ClientRow(id: string, username: string, isBlocked: bool, counts: Counts, lastActive: string)

  /** The figures of one client: its projects tallied by status. They never
      add up to more than the number of its projects. */
  function StatusCounts(projects: seq<UiProject>, clientId: string): (c: Counts)
    ensures Total(c) <= |ClientProjects(projects, clientId)|
  {
    var mine := ClientProjects(projects, clientId);
    TallyBound(mine);
    Tally(mine)
  }

  /** Another client's project leaves the figures as they were; one of the
      client's own adds one to the figure of its status. */
  lemma CountsPerClient(projects: seq<UiProject>, p: UiProject, clientId: string)
    ensures p.clientId != clientId ==> StatusCounts(projects + [p], clientId) == StatusCounts(projects, clientId)
    ensures p.clientId == clientId ==>
              StatusCounts(projects + [p], clientId) == Plus(StatusCounts(projects, clientId), Tally([p]))
  {
    FilterAppend(projects, [p], OwnedBy(clientId));
    assert [p][1..] == [];
    var mine := ClientProjects(projects, clientId);
    if p.clientId == clientId {
      assert ClientProjects(projects + [p], clientId) == mine + [p];
      TallyAppend(mine, [p]);
    } else {
      assert ClientProjects(projects + [p], clientId) == mine;
    }
  }

  /** The list after loading: each client with its figures, and
      "Recently" when it reports no last activity. */
  function Loaded(clients: seq<ClientRecord>, projects: seq<UiProject>): (rows: seq<ClientRow>)
    ensures |rows| == |clients|
    ensures forall i :: 0 <= i < |rows| ==>
              && rows[i].id == clients[i].id && rows[i].username == clients[i].username
              && rows[i].isBlocked == clients[i].isBlocked
              && rows[i].counts == StatusCounts(projects, clients[i].id)
              && rows[i].lastActive == (if clients[i].lastActive != "" then clients[i].lastActive else "Recently")
  {
    if |clients| == 0 then []
    else
      var c := clients[0];
      [ClientRow(c.id, c.username, c.isBlocked, StatusCounts(projects, c.id),
                 if c.lastActive != "" then c.lastActive else "Recently")]
        + Loaded(clients[1..], projects)
  }

  /** The status buttons above the list. */
  datatype Show = All | Active | Blocked

  predicate ShowMatches(show: Show, blocked: bool) {
    show == All || (show == Active && !blocked) || (show == Blocked && blocked)
  }

  /** Whether a row passes the search box (case-insensitive substring of the
      username) and the status buttons. */
  predicate Visible(c: ClientRow, search: string, show: Show) {
    Contains(ToLower(c.username), ToLower(search)) && ShowMatches(show, c.isBlocked)
  }

  function VisibleUnder(search: string, show: Show): ClientRow -> bool {
    (c: ClientRow) => Visible(c, search, show)
  }

  /** `filteredClients`: exactly the rows that pass both tests, in order. */
  function FilteredClients(clients: seq<ClientRow>, search: string, show: Show): (r: seq<ClientRow>)
    ensures |r| <= |clients|
    ensures forall c :: c in r <==> c in clients && Contains(ToLower(c.username), ToLower(search))
                                    && ShowMatches(show, c.isBlocked)
  {
    Filter(clients, VisibleUnder(search, show))
  }

  /** An empty search under "all" shows every client. */
  lemma EmptySearchShowsAll(clients: seq<ClientRow>)
    ensures FilteredClients(clients, "", All) == clients
  {
    forall i | 0 <= i < |clients| ensures Visible(clients[i], "", All) {
      ContainsEmpty(ToLower(clients[i].username));
    }
    FilterAll(clients, VisibleUnder("", All));
  }

  /** "Active" and "blocked" split what "all" shows. */
  lemma {:induction false} ActiveAndBlockedSplitAll(clients: seq<ClientRow>, search: string)
    ensures |FilteredClients(clients, search, Active)| + |FilteredClients(clients, search, Blocked)|
            == |FilteredClients(clients, search, All)|
  {
    if |clients| > 0 {
      ActiveAndBlockedSplitAll(clients[1..], search);
    }
  }

  /** What the PIN form does with the typed PIN. */
  datatype PinOutcome = PinRefused(alert: string) | PinIgnored | PinSent(clientId: string, pin: string)

  /** `handleUpdatePin`: a PIN of any length but four is refused before
      anything else is looked at; the characters are not checked. */
  function UpdatePin(selected: Option<ClientRow>, pin: string): (o: PinOutcome)
    ensures o.PinSent? <==> |pin| == 4 && selected.Some?
    ensures o.PinRefused? <==> |pin| != 4
    ensures o.PinRefused? ==> o.alert == "PIN must be 4 digits"
    ensures o.PinSent? ==> o == PinSent(selected.value.id, pin)
  {
    if pin == "" || |pin| != 4 then PinRefused("PIN must be 4 digits")
    else match selected
      case None => PinIgnored
      case Some(c) => PinSent(c.id, pin)
  }

  /** The name sent when adding a client: the first '@' removed, any later
      one kept. */
  function RequestedUsername(typed: string): (u: string)
    ensures '@' !in typed ==> u == typed
    ensures '@' in typed ==> |u| == |typed| - 1
    ensures '@' in typed ==>
              exists i :: 0 <= i < |typed| && typed[i] == '@' && '@' !in typed[..i] && u == typed[..i] + typed[i + 1..]
  {
    RemoveFirst(typed, '@')
  }

  /** After the server answers `{ id, username }`, the new client goes on top
      with zero figures and "Just now"; it is not blocked. */
  function Added(clients: seq<ClientRow>, id: string, username: string): (r: seq<ClientRow>)
    ensures |r| == |clients| + 1 && r[1..] == clients
    ensures r[0].id == id && r[0].username == username && !r[0].isBlocked
    ensures Total(r[0].counts) == 0 && r[0].lastActive == "Just now"
  {
    [ClientRow(id, username, false, NoCounts, "Just now")] + clients
  }

  /** `toggleBlock`'s list update: rows with that id get the flipped flag,
      every other row is kept. */
  function Toggled(clients: seq<ClientRow>, id: string, currentlyBlocked: bool): (r: seq<ClientRow>)
    ensures |r| == |clients|
    ensures forall i :: 0 <= i < |r| && clients[i].id != id ==> r[i] == clients[i]
    ensures forall i :: 0 <= i < |r| && clients[i].id == id ==>
              r[i] == clients[i].(isBlocked := !currentlyBlocked)
  {
    if |clients| == 0 then []
    else
      var c := clients[0];
      [if c.id == id then c.(isBlocked := !currentlyBlocked) else c] + Toggled(clients[1..], id, currentlyBlocked)
  }

  /** Toggling back restores the list, when the flag shown was the real one. */
  lemma ToggleTwice(clients: seq<ClientRow>, id: string, currentlyBlocked: bool)
    requires forall i :: 0 <= i < |clients| && clients[i].id == id ==> clients[i].isBlocked == currentlyBlocked
    ensures Toggled(Toggled(clients, id, currentlyBlocked), id, !currentlyBlocked) == clients
  {
    var once := Toggled(clients, id, currentlyBlocked);
    var twice := Toggled(once, id, !currentlyBlocked);
    assert forall i :: 0 <= i < |clients| ==> twice[i] == clients[i];
  }

  function OtherThan(id: string): ClientRow -> bool {
    (c: ClientRow) => c.id != id
  }

  /** `handleDeleteClient`'s list update. */
  function Deleted(clients: seq<ClientRow>, id: string): (r: seq<ClientRow>)
    ensures forall c :: c in r <==> c in clients && c.id != id
  {
    Filter(clients, OtherThan(id))
  }

  /** Deleting keeps the order and the repeats of the other rows: it deletes
      from two lists one after the other, and a single row stays or goes. */
  lemma DeletedKeepsOrder(a: seq<ClientRow>, b: seq<ClientRow>, id: string)
    ensures Deleted(a + b, id) == Deleted(a, id) + Deleted(b, id)
    ensures forall c :: Deleted([c], id) == if c.id != id then [c] else []
  {
    FilterAppend(a, b, OtherThan(id));
    forall c ensures Deleted([c], id) == if c.id != id then [c] else [] {
      assert [c][1..] == [];
    }
  }

  /** Adding a client and deleting it leaves the list as it was. */
  lemma AddThenDelete(clients: seq<ClientRow>, id: string, username: string)
    requires forall i :: 0 <= i < |clients| ==> clients[i].id != id
    ensures Deleted(Added(clients, id, username), id) == clients
  {
    var row := ClientRow(id, username, false, NoCounts, "Just now");
    var r := [row] + clients;
    assert r[1..] == clients;
    FilterAll(clients, OtherThan(id));
    assert Filter(r, OtherThan(id)) == clients;
  }

  /** The four figure cards on a client's sheet; each links to the projects
      page filtered by a status and by the client. */
  datatype Card = InProgressCard | CompletedCard | DelayedCard | NotStartedCard

  function CardStatus(card: Card): Store.ProjectStatus {
    match card
    case InProgressCard => Store.IN_PROGRESS
    case CompletedCard => Store.COMPLETED
    case DelayedCard => Store.DELAYED
    case NotStartedCard => Store.PENDING
  }

  /** The figure a card shows. */
  function Figure(c: Counts, card: Card): nat {
    match card
    case InProgressCard => c.inProgress
    case CompletedCard => c.completed
    case DelayedCard => c.delayed
    case NotStartedCard => c.notStarted
  }

  /** The `status` query of each card's link, as the page writes it. */
  function CardQueryAsWritten(card: Card): string {
    match card
    case InProgressCard => "in_progress"
    case CompletedCard => "completed"
    case DelayedCard => "delayed"
    case NotStartedCard => "not_started"
  }

  /** The query a card's link is meant to carry: its status's name, in lower
      case like the others. */
  function CardQuery(card: Card): (q: string)
    ensures ProjectsPage.InitialStatus(Some(q)) == ProjectsPage.Only(CardStatus(card))
  {
    ProjectsPage.InitialStatusAnyCase(CardStatus(card));
    ToLower(Store.StatusName(CardStatus(card)))
  }

  /** The list a link opens: no search, the status read from `query`, this client. */
  function Opened(projects: seq<UiProject>, clientId: string, query: string): seq<UiProject> {
    ProjectsPage.FilteredProjects(projects, "", ProjectsPage.InitialStatus(Some(query)), clientId)
  }

  /** With the intended query, every card opens exactly as many projects as
      its figure says. */
  lemma CardOpensItsFigure(projects: seq<UiProject>, clientId: string, card: Card)
    requires clientId != ""
    ensures |Opened(projects, clientId, CardQuery(card))| == Figure(StatusCounts(projects, clientId), card)
  {
    var s := CardStatus(card);
    var q := CardQuery(card);
    assert Opened(projects, clientId, q) == ProjectsPage.FilteredProjects(projects, "", ProjectsPage.Only(s), clientId);
    ProjectsPage.ListedCount(projects, s, clientId);
    FigureIsTally(StatusCounts(projects, clientId), ClientProjects(projects, clientId), card);
  }

  /** A card's figure is the count of its status in the tallied list. */
  lemma FigureIsTally(c: Counts, mine: seq<UiProject>, card: Card)
    requires c == Tally(mine)
    ensures Figure(c, card) == Count(mine, StatusIs(Store.StatusName(CardStatus(card))))
  {
    match card
    case InProgressCard => assert Store.StatusName(Store.IN_PROGRESS) == "IN_PROGRESS";
    case CompletedCard => assert Store.StatusName(Store.COMPLETED) == "COMPLETED";
    case DelayedCard => assert Store.StatusName(Store.DELAYED) == "DELAYED";
    case NotStartedCard => assert Store.StatusName(Store.PENDING) == "PENDING";
  }

  /** As written, the "not started" link names no status, so the projects
      page falls back to every status. */
  lemma NotStartedQueryNamesNoStatus()
    ensures ProjectsPage.InitialStatus(Some(CardQueryAsWritten(NotStartedCard))) == ProjectsPage.ALL
  {
    NoStatusUpperN(CardQueryAsWritten(NotStartedCard));
  }

  /** No status name starts with 'N'. */
  lemma NoStatusUpperN(q: string)
    requires |q| > 0 && q[0] == 'n'
    ensures Store.ParseStatus(ToUpper(q)).None?
  {
    var up := ToUpper(q);
    assert up[0] == UpperChar(q[0]) == 'N';
  }

  /** Hence a client whose only project is completed sees 0 on the "not
      started" card and a list of 1 behind it. */
  lemma NotStartedCardOpensEveryStatus(p: UiProject)
    requires p.clientId != "" && p.status == "COMPLETED"
    ensures Figure(StatusCounts([p], p.clientId), NotStartedCard) == 0
    ensures |Opened([p], p.clientId, CardQueryAsWritten(NotStartedCard))| == 1
  {
    NotStartedQueryNamesNoStatus();
    ContainsEmpty(ToLower(p.title));
    assert [p][1..] == [];
    assert ClientProjects([p], p.clientId) == [p];
    TallyOne(p);
    assert Opened([p], p.clientId, CardQueryAsWritten(NotStartedCard)) == [p];
  }
}
