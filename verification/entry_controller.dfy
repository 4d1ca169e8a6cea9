/** The progress-entry handlers: one entry per uploaded file, the per-project
    list, in-place edits and single deletions. */
module EntryController {
  import opened Common
  import opened Text
  import opened Store
  import opened Tokens
  import opened Views
  import opened Http
  import opened Sorting
  import opened Upload
  import opened ProjectController

  const MissingFiles: string := "Missing files in the \"media\" field"

  function EntryCreatedAt(e: Entry): int { e.createdAt }

  /** The stored file type: any `video/` mimetype is a video, exactly
      `application/pdf` is a PDF, anything else counts as an image. The same
      rule serves creation and replacement. */
  function Classify(mimetype: string): (t: FileType)
    ensures t == VIDEO <==> StartsWith(mimetype, "video/")
    ensures t == PDF <==> mimetype == "application/pdf"
    ensures t == IMAGE <==> !StartsWith(mimetype, "video/") && mimetype != "application/pdf"
  {
    if StartsWith(mimetype, "video/") then
      assert mimetype[0] == "video/"[0] != "application/pdf"[0];
      VIDEO
    else if mimetype == "application/pdf" then PDF
    else IMAGE
  }

  /** `file.path.replace(/\\/g, '/')`. */
  function FileUrl(path: string): (url: string)
    ensures |url| == |path| && '\\' !in url
    ensures forall i :: 0 <= i < |path| && path[i] != '\\' ==> url[i] == path[i]
    ensures forall i :: 0 <= i < |path| && path[i] == '\\' ==> url[i] == '/'
  {
    ReplaceAll(path, '\\', '/')
  }

  /** The category a request asks for: a listed one, otherwise TIMELINE. */
  function RequestedCategory(category: string): (c: EntryCategory)
    ensures category in ValidCategories ==> CategoryName(c) == category
    ensures category !in ValidCategories ==> c == TIMELINE
  {
    ParseCategory(category).GetOr(TIMELINE)
  }

  /** The entry a stored file becomes. */
  function EntryFor(id: Id, projectId: Id, description: string, category: EntryCategory, f: StoredFile, nowMs: int): Entry {
    Entry(id, projectId, description, Some(category), FileUrl(f.path), Classify(f.mimetype), nowMs)
  }

  function NewEntries(projectId: Id, description: string, category: EntryCategory,
                      files: seq<StoredFile>, ids: seq<Id>, nowMs: int): (es: seq<Entry>)
    requires |ids| == |files|
    ensures |es| == |files|
    ensures forall i :: 0 <= i < |files| ==> es[i] == EntryFor(ids[i], projectId, description, category, files[i], nowMs)
  {
    if |files| == 0 then []
    else [EntryFor(ids[0], projectId, description, category, files[0], nowMs)]
         + NewEntries(projectId, description, category, files[1..], ids[1..], nowMs)
  }

  /** Ids the store has not used, pairwise distinct. */
  predicate FreshIds(st: State, ids: seq<Id>) {
    && (forall i :: 0 <= i < |ids| ==> ids[i] !in EntryIds(st))
    && (forall i, j :: 0 <= i < j < |ids| ==> ids[i] != ids[j])
  }

  /** Appending entries with fresh ids to an existing project keeps the store valid. */
  lemma AppendEntriesValid(st: State, added: seq<Entry>)
    requires Valid(st)
    requires forall i :: 0 <= i < |added| ==> added[i].projectId in ProjectIds(st) && added[i].id !in EntryIds(st)
    requires forall i, j :: 0 <= i < j < |added| ==> added[i].id != added[j].id
    ensures Valid(st.(entries := st.entries + added))
  {
    var es := st.entries + added;
    forall i, j | 0 <= i < j < |es| ensures es[i].id != es[j].id {
      if j >= |st.entries| {
        if i < |st.entries| {
          assert es[i] in st.entries;
        }
      }
    }
  }

  /** `createProjectEntry`: the file check comes first, so a request with a
      description but no file is refused with 400 before the project is
      looked up; an unknown project is 404; otherwise every file becomes an
      entry, in upload order, sharing the description (default empty) and the
      category (default TIMELINE). The controller never touches the disk: on
      a 404 the files multer stored stay there. */
  function CreateProjectEntry(st: State, projectId: Id, description: string, category: string,
                              files: seq<StoredFile>, ids: seq<Id>, nowMs: int): (out: Step)
    requires |ids| == |files| && FreshIds(st, ids)
    ensures |files| == 0 ==> out == Reply(st, 400, MissingFiles)
    ensures |files| > 0 && ProjectById(st, projectId).None? ==> out == Reply(st, 404, "Project not found")
    ensures out.resp.status == 201 <==> |files| > 0 && ProjectById(st, projectId).Some?
    ensures out.resp.status != 201 ==> out.st == st
    ensures out.st.disk == st.disk
    ensures out.resp.status == 201 ==>
              && |out.st.entries| == |st.entries| + |files|
              && out.st.entries[..|st.entries|] == st.entries
              && out.st == st.(entries := out.st.entries)
              && forall i :: 0 <= i < |files| ==>
                   var e := out.st.entries[|st.entries| + i];
                   && e.id == ids[i] && e.projectId == projectId && e.description == description
                   && e.category == Some(RequestedCategory(category))
                   && e.fileUrl == FileUrl(files[i].path) && e.fileType == Classify(files[i].mimetype)
    ensures out.resp.status == 201 ==>
              out.resp.body == EntryViews(FormatEntries(out.st.entries[|st.entries|..]))
    ensures Valid(st) ==> Valid(out.st)
  {
    if |files| == 0 then Reply(st, 400, MissingFiles)
    else
      match ProjectById(st, projectId)
      case None => Reply(st, 404, "Project not found")
      case Some(pi) =>
        var added := NewEntries(projectId, description, RequestedCategory(category), files, ids, nowMs);
        var st' := st.(entries := st.entries + added);
        assert st'.entries[..|st.entries|] == st.entries && st'.entries[|st.entries|..] == added;
        assert Valid(st) ==> Valid(st') by {
          if Valid(st) {
            assert projectId in ProjectIds(st) by { assert st.projects[pi] in st.projects; }
            AppendEntriesValid(st, added);
          }
        }
        Step(st', Response(201, EntryViews(FormatEntries(added))))
  }

  /** After a successful creation the project's entry list is the old list
      followed by the new entries, in upload order. */
  lemma {:induction false} CreateThenList(st: State, projectId: Id, description: string, category: string,
                                         files: seq<StoredFile>, ids: seq<Id>, nowMs: int)
    requires |ids| == |files| && FreshIds(st, ids)
    requires CreateProjectEntry(st, projectId, description, category, files, ids, nowMs).resp.status == 201
    ensures var st' := CreateProjectEntry(st, projectId, description, category, files, ids, nowMs).st;
            EntriesOfProject(st', projectId) == EntriesOfProject(st, projectId) + st'.entries[|st.entries|..]
  {
    var st' := CreateProjectEntry(st, projectId, description, category, files, ids, nowMs).st;
    var added := st'.entries[|st.entries|..];
    assert st'.entries == st.entries + added;
    assert forall i :: 0 <= i < |added| ==> added[i].projectId == projectId by {
      forall i | 0 <= i < |added| ensures added[i].projectId == projectId {
        assert added[i] == st'.entries[|st.entries| + i];
      }
    }
    FilterAppend(st.entries, added, InProject(projectId));
    FilterAll(added, InProject(projectId));
  }

  /** The entries a list of views carries, in order. */
  function ViewEntries(vs: seq<EntryView>): (es: seq<Entry>)
    ensures |es| == |vs|
    ensures forall i :: 0 <= i < |vs| ==> es[i] == vs[i].entry
  {
    if |vs| == 0 then [] else [vs[0].entry] + ViewEntries(vs[1..])
  }

  /** `getProjectEntries`: 404 for a missing project before the ownership
      check; then the project's entries, newest first, formatted. */
  function GetProjectEntries(st: State, projectId: Id, user: Claims): (out: Step)
    ensures out.st == st
    ensures ProjectById(st, projectId).None? ==> out == Reply(st, 404, "Project not found")
    ensures out.resp.status == 403 <==>
              ProjectById(st, projectId).Some? && !MaySee(user, st.projects[ProjectById(st, projectId).value])
    ensures out.resp.status == 403 ==>
              out.resp.body == Message("Forbidden: You do not have access to this project entries")
    ensures out.resp.status == 200 <==>
              ProjectById(st, projectId).Some? && MaySee(user, st.projects[ProjectById(st, projectId).value])
    ensures out.resp.status == 200 ==>
              && out.resp.body.EntryViews?
              && SortedDesc(ViewEntries(out.resp.body.views), EntryCreatedAt)
              && multiset(ViewEntries(out.resp.body.views)) == multiset(EntriesOfProject(st, projectId))
              && forall v :: v in out.resp.body.views ==> v == FormatEntry(v.entry)
  {
    match ProjectById(st, projectId)
    case None => Reply(st, 404, "Project not found")
    case Some(i) =>
      if !MaySee(user, st.projects[i]) then
        Reply(st, 403, "Forbidden: You do not have access to this project entries")
      else
        var sorted := SortDesc(EntriesOfProject(st, projectId), EntryCreatedAt);
        var vs := FormatEntries(sorted);
        assert ViewEntries(vs) == sorted;
        Step(st, Response(200, EntryViews(vs)))
  }

  /** `req.file || files[0]`: the single file if any, else the first of the array. */
  function ChosenFile(single: Option<StoredFile>, files: seq<StoredFile>): (f: Option<StoredFile>)
    ensures f.None? <==> single.None? && |files| == 0
    ensures single.Some? ==> f == single
    ensures single.None? && |files| > 0 ==> f == Some(files[0])
  {
    if single.Some? then single else if |files| > 0 then Some(files[0]) else None
  }

  /** The row after an edit: a non-empty description and a listed category
      replace the old ones; a file replaces url and type. */
  function Edited(e: Entry, description: string, category: string, file: Option<StoredFile>): (e': Entry)
    ensures e'.id == e.id && e'.projectId == e.projectId && e'.createdAt == e.createdAt
    ensures e'.description == (if description != "" then description else e.description)
    ensures category in ValidCategories ==> e'.category.Some? && CategoryName(e'.category.value) == category
    ensures category !in ValidCategories ==> e'.category == e.category
    ensures file.None? ==> e'.fileUrl == e.fileUrl && e'.fileType == e.fileType
    ensures file.Some? ==> e'.fileUrl == FileUrl(file.value.path) && e'.fileType == Classify(file.value.mimetype)
  {
    var c := ParseCategory(category);
    e.(description := if description != "" then description else e.description,
       category := if c.Some? then c else e.category,
       fileUrl := if file.Some? then FileUrl(file.value.path) else e.fileUrl,
       fileType := if file.Some? then Classify(file.value.mimetype) else e.fileType)
  }

  /** `updateProjectEntry`: 404 for a missing entry; otherwise only that row
      changes, as `Edited` says. The replaced file stays on disk. */
  function UpdateProjectEntry(st: State, id: Id, description: string, category: string, file: Option<StoredFile>): (out: Step)
    ensures EntryById(st, id).None? ==> out == Reply(st, 404, "Entry not found")
    ensures out.resp.status == 200 <==> EntryById(st, id).Some?
    ensures out.resp.status == 200 ==>
              && var i := EntryById(st, id).value;
                 var e' := Edited(st.entries[i], description, category, file);
                 && out.st == st.(entries := st.entries[i := e'])
                 && out.resp.body == EntryDetail(FormatEntry(e'))
    ensures out.st.disk == st.disk
    ensures Valid(st) ==> Valid(out.st)
  {
    match EntryById(st, id)
    case None => Reply(st, 404, "Entry not found")
    case Some(i) =>
      var e' := Edited(st.entries[i], description, category, file);
      var st' := st.(entries := st.entries[i := e']);
      assert Valid(st) ==> Valid(st') by {
        if Valid(st) {
          assert forall k :: 0 <= k < |st.entries| ==>
                   st'.entries[k].id == st.entries[k].id && st'.entries[k].projectId == st.entries[k].projectId;
        }
      }
      Step(st', Response(200, EntryDetail(FormatEntry(e'))))
  }

  /** Sending the same edit twice leaves the store as sending it once. */
  lemma {:induction false} UpdateIdempotent(st: State, id: Id, description: string, category: string, file: Option<StoredFile>)
    ensures var once := UpdateProjectEntry(st, id, description, category, file).st;
            UpdateProjectEntry(once, id, description, category, file).st == once
  {
    match EntryById(st, id)
    case None =>
    case Some(i) =>
      var once := UpdateProjectEntry(st, id, description, category, file).st;
      assert forall k :: 0 <= k < |st.entries| ==> once.entries[k].id == st.entries[k].id;
      assert EntryById(once, id) == Some(i);
      var e1 := once.entries[i];
      var e2 := Edited(e1, description, category, file);
      assert e2 == e1;
      assert once.entries[i := e2] == once.entries;
  }

  /** An edit with an empty description, an unlisted category and no file
      changes nothing: the description cannot be cleared this way. */
  lemma {:induction false} EmptyEditChangesNothing(st: State, id: Id, category: string)
    requires category !in ValidCategories
    ensures UpdateProjectEntry(st, id, "", category, None).st == st
  {
    match EntryById(st, id)
    case None =>
    case Some(i) =>
      assert Edited(st.entries[i], "", category, None) == st.entries[i];
      assert st.entries[i := st.entries[i]] == st.entries;
  }

  /** `deleteProjectEntry`: 404 for a missing entry; otherwise that row goes
      and every other stays. Its file stays on disk. */
  function DeleteProjectEntry(st: State, id: Id): (out: Step)
    ensures EntryById(st, id).None? ==> out == Reply(st, 404, "Entry not found")
    ensures out.resp.status == 200 <==> EntryById(st, id).Some?
    ensures out.resp.status == 200 ==>
              && out.resp.body == Message("Entry deleted successfully")
              && id !in EntryIds(out.st)
              && (forall e :: e in st.entries && e.id != id ==> e in out.st.entries)
              && (forall e :: e in out.st.entries ==> e in st.entries)
              && out.st == st.(entries := out.st.entries)
    ensures Valid(st) ==> Valid(out.st)
  {
    match EntryById(st, id)
    case None => Reply(st, 404, "Entry not found")
    case Some(_) =>
      var keep := (e: Entry) => e.id != id;
      var es := Filter(st.entries, keep);
      var st' := st.(entries := es);
      assert forall e :: e in st.entries && e.id != id ==> e in es by {
        forall e | e in st.entries && e.id != id ensures e in es {
          var k :| 0 <= k < |st.entries| && st.entries[k] == e;
        }
      }
      assert forall e :: e in es ==> e in st.entries && e.id != id by {
        forall e | e in es ensures e in st.entries && e.id != id {
          var k :| 0 <= k < |es| && es[k] == e;
        }
      }
      assert Valid(st) ==> Valid(st') by {
        if Valid(st) {
          FilterEntriesUnique(st.entries, keep);
          forall k | 0 <= k < |es| ensures es[k].projectId in ProjectIds(st') {
            var j :| 0 <= j < |st.entries| && st.entries[j] == es[k];
          }
        }
      }
      Step(st', Response(200, Message("Entry deleted successfully")))
  }

  /** Deleting the entry a one-file upload just created restores the entry
      table (the stored file itself stays on disk). */
  lemma {:induction false} CreateThenDeleteEntry(st: State, projectId: Id, description: string, category: string,
                                                f: StoredFile, newId: Id, nowMs: int)
    requires FreshIds(st, [newId])
    requires ProjectById(st, projectId).Some?
    ensures var st' := CreateProjectEntry(st, projectId, description, category, [f], [newId], nowMs).st;
            DeleteProjectEntry(st', newId).st == st
  {
    var st' := CreateProjectEntry(st, projectId, description, category, [f], [newId], nowMs).st;
    var e := st'.entries[|st.entries|];
    assert st'.entries == st.entries + [e];
    assert EntryById(st', newId).Some? by {
      assert st'.entries[|st.entries|].id == newId;
    }
    var keep := (x: Entry) => x.id != newId;
    forall k | 0 <= k < |st.entries| ensures keep(st.entries[k]) {
      assert st.entries[k] in st.entries;
    }
    FilterAppend(st.entries, [e], keep);
    FilterAll(st.entries, keep);
  }
}
