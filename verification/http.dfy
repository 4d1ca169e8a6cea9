/** Response shaping of the project and entry controllers: every entry sent to
    the frontend carries a defaulted category and a `media` array built from
    its single stored file. */
module Views {
  import opened Common
  import opened Store

  datatype MediaItem = MediaItem(url: string, fileType: FileType)

  /** An entry as sent: the row's fields plus `category` and `media`. */
  datatype EntryView = EntryView(entry: Entry, category: EntryCategory, media: seq<MediaItem>)

  /** A project as sent, with the optional `client: { username }` and
      `entries` inclusions. */
  datatype ProjectDoc = ProjectDoc(project: Project, clientUsername: Option<string>, entries: Option<seq<EntryView>>)

  /** `formatEntry` (and the per-entry mapping of `formatProjectEntries`). */
  function FormatEntry(e: Entry): (v: EntryView)
    ensures v.entry == e
    ensures e.category.Some? ==> v.category == e.category.value
    ensures e.category.None? ==> v.category == TIMELINE
    ensures |v.media| == 1 <==> e.fileUrl != ""
    ensures |v.media| <= 1
    ensures forall m :: m in v.media ==> m.url == e.fileUrl && m.fileType == e.fileType
  {
    EntryView(e, e.category.GetOr(TIMELINE),
              if e.fileUrl != "" then [MediaItem(e.fileUrl, e.fileType)] else [])
  }

  function FormatEntries(es: seq<Entry>): (vs: seq<EntryView>)
    ensures |vs| == |es|
    ensures forall i :: 0 <= i < |es| ==> vs[i] == FormatEntry(es[i])
  {
    if |es| == 0 then [] else [FormatEntry(es[0])] + FormatEntries(es[1..])
  }

  /** `formatProjectEntries`: a project loaded without its entries passes
      through untouched; otherwise every entry is formatted, in order. */
  function FormatProjectEntries(p: Project, clientUsername: Option<string>, entries: Option<seq<Entry>>): (d: ProjectDoc)
    ensures d.project == p && d.clientUsername == clientUsername
    ensures d.entries.None? <==> entries.None?
    ensures entries.Some? ==> |d.entries.value| == |entries.value|
    ensures entries.Some? ==> forall i :: 0 <= i < |entries.value| ==> d.entries.value[i].entry == entries.value[i]
  {
    match entries
    case None => ProjectDoc(p, clientUsername, None)
    case Some(es) => ProjectDoc(p, clientUsername, Some(FormatEntries(es)))
  }

  /** Formatting loses nothing: the stored row, and so its file, can be read
      back from every view. */
  lemma FormatEntryKeepsFile(e: Entry)
    ensures FormatEntry(e).entry.fileUrl == e.fileUrl
    ensures e.fileUrl != "" ==> FormatEntry(e).media[0] == MediaItem(e.fileUrl, e.fileType)
  {
  }
}

/** HTTP responses and the step type of every handler. */
module Http {
  import opened Common
  import opened Store
  import opened Tokens
  import opened Views

  datatype Body =
    | Message(message: string)
    | ClientCreated(id: Id, username: string)
    | ClientList(clients: seq<Client>)
    | TokenIssued(token: string, role: Role)
    | ProjectRow(project: Project)
    | ProjectDocs(docs: seq<ProjectDoc>)
    | ProjectDetail(doc: ProjectDoc)
    | EntryViews(views: seq<EntryView>)
    | EntryDetail(view: EntryView)
    | ProfileUpdated(message: string, email: string)
    | ErrorReport(message: string, error: Option<string>)   // None: the empty object
    | RouteNotFound

  datatype Response = Response(status: int, body: Body)

  /** The store after a request, and the response sent. */
  datatype Step = Step(st: State, resp: Response)

  function Reply(st: State, status: int, message: string): Step {
    Step(st, Response(status, Message(message)))
  }

  const InternalError: string := "Internal server error"
}
