/** The records the administrator's pages receive from the API, as the pages
    read them (statuses are the JSON strings, a missing string is ""), and the
    per-status tally both the clients page and the dashboard compute. */
module AdminUi {
  import opened Common

  /** A row of `GET /admin/clients`. */
  datatype ClientRecord = ClientRecord(id: string, username: string, isBlocked: bool, lastActive: string)

  /** A row of `GET /projects`; `clientName` is the included client's username. */
  datatype UiProject = UiProject(id: string, title: string, status: string, clientId: string, clientName: string)

  /** The test `p.status === name`. */
  function StatusIs(name: string): UiProject -> bool {
    (p: UiProject) => p.status == name
  }

  function OwnedBy(clientId: string): UiProject -> bool {
    (p: UiProject) => p.clientId == clientId
  }

  /** The projects of one client, in list order. */
  function ClientProjects(projects: seq<UiProject>, clientId: string): (r: seq<UiProject>)
    ensures forall p :: p in r <==> p in projects && p.clientId == clientId
  {
    Filter(projects, OwnedBy(clientId))
  }

  /** How many projects are in each status. */
  datatype Counts = Counts(inProgress: nat, completed: nat, delayed: nat, notStarted: nat)

  const NoCounts := Counts(0, 0, 0, 0)

  function Total(c: Counts): nat { c.inProgress + c.completed + c.delayed + c.notStarted }

  function Plus(c: Counts, d: Counts): Counts {
    Counts(c.inProgress + d.inProgress, c.completed + d.completed, c.delayed + d.delayed,
           c.notStarted + d.notStarted)
  }

  /** The four `filter(status === …).length` figures of a project list. */
  function Tally(ps: seq<UiProject>): Counts {
    Counts(Count(ps, StatusIs("IN_PROGRESS")), Count(ps, StatusIs("COMPLETED")), Count(ps, StatusIs("DELAYED")),
           Count(ps, StatusIs("PENDING")))
  }

  /** The figures of a list are those of its halves added up. */
  lemma TallyAppend(a: seq<UiProject>, b: seq<UiProject>)
    ensures Tally(a + b) == Plus(Tally(a), Tally(b))
  {
    FilterAppend(a, b, StatusIs("IN_PROGRESS"));
    FilterAppend(a, b, StatusIs("COMPLETED"));
    FilterAppend(a, b, StatusIs("DELAYED"));
    FilterAppend(a, b, StatusIs("PENDING"));
  }

  /** A single project adds one to the figure of its status, if it has one
      of the four, and nothing otherwise. */
  lemma TallyOne(p: UiProject)
    ensures Tally([p]) == Counts(if p.status == "IN_PROGRESS" then 1 else 0, if p.status == "COMPLETED" then 1 else 0,
                                 if p.status == "DELAYED" then 1 else 0, if p.status == "PENDING" then 1 else 0)
  {
    assert [p][1..] == [];
  }

  /** The statuses exclude each other, so no project is counted twice: the
      figures never add up to more than the list's length. */
  lemma {:induction false} TallyBound(ps: seq<UiProject>)
    ensures Total(Tally(ps)) <= |ps|
  {
    if |ps| > 0 {
      TallyBound(ps[1..]);
      assert ps == [ps[0]] + ps[1..];
      TallyAppend([ps[0]], ps[1..]);
      TallyOne(ps[0]);
    }
  }
}
