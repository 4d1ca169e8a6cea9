/** The administrator's dashboard figures, computed from the full client and
    project lists. */
module AdminDashboard {
  import opened Common
  import opened AdminUi

  datatype Stats = Stats(totalClients: nat, activeProjects: nat, pendingProjects: nat)

  predicate NotBlocked(c: ClientRecord) { !c.isBlocked }

  /** The three figures: clients that are not blocked, projects in progress,
      and projects pending or delayed. */
  function ComputeStats(projects: seq<UiProject>, clients: seq<ClientRecord>): (s: Stats)
    ensures s.totalClients <= |clients|
    ensures s.activeProjects + s.pendingProjects <= |projects|
    ensures s.activeProjects == Tally(projects).inProgress
    ensures s.pendingProjects == Tally(projects).notStarted + Tally(projects).delayed
  {
    var t := Tally(projects);
    TallyBound(projects);
    Stats(Count(clients, NotBlocked), t.inProgress, t.notStarted + t.delayed)
  }

  /** Each project moves at most one figure, by one: the one its status
      belongs to. */
  lemma OneMoreProject(before: seq<UiProject>, after: seq<UiProject>, p: UiProject, clients: seq<ClientRecord>)
    ensures var s := ComputeStats(before + [p] + after, clients); var s0 := ComputeStats(before + after, clients);
            && s.totalClients == s0.totalClients
            && s.activeProjects == s0.activeProjects + (if p.status == "IN_PROGRESS" then 1 else 0)
            && s.pendingProjects == s0.pendingProjects + (if p.status in {"PENDING", "DELAYED"} then 1 else 0)
  {
    TallyAppend(before + [p], after);
    TallyAppend(before, [p]);
    TallyAppend(before, after);
    TallyOne(p);
  }

  /** Completed projects show in no figure. */
  lemma CompletedCountsNowhere(before: seq<UiProject>, after: seq<UiProject>, p: UiProject, clients: seq<ClientRecord>)
    requires p.status == "COMPLETED"
    ensures ComputeStats(before + [p] + after, clients) == ComputeStats(before + after, clients)
  {
    OneMoreProject(before, after, p, clients);
  }

  /** Blocking a client lowers the client figure by one; the project figures
      stay. */
  lemma BlockingLowersClients(projects: seq<UiProject>, before: seq<ClientRecord>, c: ClientRecord,
                              after: seq<ClientRecord>)
    ensures var s := ComputeStats(projects, before + [c.(isBlocked := false)] + after);
            var s' := ComputeStats(projects, before + [c.(isBlocked := true)] + after);
            s'.totalClients + 1 == s.totalClients && s'.activeProjects == s.activeProjects
            && s'.pendingProjects == s.pendingProjects
  {
    var open := c.(isBlocked := false);
    var shut := c.(isBlocked := true);
    FilterAppend(before + [open], after, NotBlocked);
    FilterAppend(before, [open], NotBlocked);
    FilterAppend(before + [shut], after, NotBlocked);
    FilterAppend(before, [shut], NotBlocked);
    assert [open][1..] == [] && [shut][1..] == [];
  }
}
