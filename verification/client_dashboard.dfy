/** The client's project page: media URLs and types read from loosely shaped
    entries, the timeline grouping of entries uploaded together, the cover
    picture of a group, and the document folders. */
module ClientDashboard {
  import opened Common
  import opened Text
  import opened Sorting

  /** A media item as the page reads it. Each field is "" when absent: the
      URL may come under any of five names, the type under two. */
  datatype Media = Media(url: string, path: string, file: string, fileUrl: string, link: string,
                         kind: string, fileType: string)

  /** An entry as the page reads it ("" for an absent string field). */
  datatype UiEntry = UiEntry(description: string, category: string, createdAt: int,
                             media: seq<Media>, fileUrl: string, fileType: string)

  /** `getFullUrl`: empty stays empty, absolute (`http…`) stays as is,
      anything else is joined to the media server's base. */
  function FullUrl(base: string, url: string): (full: string)
    ensures url == "" ==> full == ""
    ensures url != "" && StartsWith(url, "http") ==> full == url
    ensures url != "" && !StartsWith(url, "http") ==> full == base + "/" + url
  {
    if url == "" then ""
    else if StartsWith(url, "http") then url
    else base + "/" + url
  }

  /** With an absolute base, a full URL is left alone by a second pass. */
  lemma {:induction false} FullUrlIdempotent(base: string, url: string)
    requires StartsWith(base, "http")
    ensures FullUrl(base, FullUrl(base, url)) == FullUrl(base, url)
  {
    if url != "" && !StartsWith(url, "http") {
      var full := base + "/" + url;
      assert full[..4] == base[..4];
    }
  }

  /** `getMediaUrl`: the first non-empty of url, path, file, fileUrl, link. */
  function MediaUrl(m: Media): (u: string)
    ensures u == "" <==> m.url == "" && m.path == "" && m.file == "" && m.fileUrl == "" && m.link == ""
    ensures m.url != "" ==> u == m.url
    ensures m.url == "" && m.path != "" ==> u == m.path
    ensures m.url == "" && m.path == "" && m.file != "" ==> u == m.file
    ensures m.url == "" && m.path == "" && m.file == "" && m.fileUrl != "" ==> u == m.fileUrl
    ensures m.url == "" && m.path == "" && m.file == "" && m.fileUrl == "" ==> u == m.link
  {
    if m.url != "" then m.url
    else if m.path != "" then m.path
    else if m.file != "" then m.file
    else if m.fileUrl != "" then m.fileUrl
    else m.link
  }

  /** `getMediaType`: the type, else the fileType, else IMAGE; upper-cased. */
  function MediaType(m: Media): (t: string)
    ensures forall i :: 0 <= i < |t| ==> !('a' <= t[i] <= 'z')
    ensures m.kind == "" && m.fileType == "" ==> t == "IMAGE"
    ensures m.kind != "" ==> t == ToUpper(m.kind)
    ensures m.kind == "" && m.fileType != "" ==> t == ToUpper(m.fileType)
  {
    ToUpper(if m.kind != "" then m.kind else if m.fileType != "" then m.fileType else "IMAGE")
  }

  /** `getEntryCategory`: TIMELINE when none is set. */
  function EntryCategory(e: UiEntry): (c: string)
    ensures c != ""
    ensures e.category != "" ==> c == e.category
    ensures e.category == "" ==> c == "TIMELINE"
  {
    if e.category != "" then e.category else "TIMELINE"
  }

  /** The one item built from an entry's own file. */
  function FileMedia(e: UiEntry): Media {
    var kind := if e.fileType != "" then e.fileType
                else if EndsWith(ToLower(e.fileUrl), ".pdf") then "PDF" else "IMAGE";
    Media(e.fileUrl, "", "", "", "", ToUpper(kind), "")
  }

  /** `getEntryMedia`: a non-empty media list as it is; otherwise one item
      for the entry's file, typed by its fileType or, failing that, PDF for a
      `.pdf` name (any case) and IMAGE otherwise; nothing without a file. */
  function EntryMedia(e: UiEntry): (ms: seq<Media>)
    ensures |e.media| > 0 ==> ms == e.media
    ensures |e.media| == 0 ==> |ms| == (if e.fileUrl != "" then 1 else 0)
    ensures |e.media| == 0 && e.fileUrl != "" ==>
              && MediaUrl(ms[0]) == e.fileUrl
              && (e.fileType != "" ==> MediaType(ms[0]) == ToUpper(e.fileType))
              && (e.fileType == "" && EndsWith(ToLower(e.fileUrl), ".pdf") ==> MediaType(ms[0]) == "PDF")
              && (e.fileType == "" && !EndsWith(ToLower(e.fileUrl), ".pdf") ==> MediaType(ms[0]) == "IMAGE")
  {
    if |e.media| > 0 then e.media
    else if e.fileUrl != "" then
      FileMediaType(e);
      [FileMedia(e)]
    else []
  }

  /** The item built from the entry's file carries its URL and the upper-cased
      kind: the fileType, else PDF or IMAGE by the file's name. */
  lemma FileMediaType(e: UiEntry)
    ensures MediaUrl(FileMedia(e)) == e.fileUrl
    ensures e.fileType != "" ==> MediaType(FileMedia(e)) == ToUpper(e.fileType)
    ensures e.fileType == "" && EndsWith(ToLower(e.fileUrl), ".pdf") ==> MediaType(FileMedia(e)) == "PDF"
    ensures e.fileType == "" && !EndsWith(ToLower(e.fileUrl), ".pdf") ==> MediaType(FileMedia(e)) == "IMAGE"
  {
    var m := FileMedia(e);
    if e.fileType != "" {
      KindUpper(e.fileUrl, e.fileType);
    } else if EndsWith(ToLower(e.fileUrl), ".pdf") {
      KindUpper(e.fileUrl, "PDF");
      UpperIsIdentity("PDF");
    } else {
      KindUpper(e.fileUrl, "IMAGE");
      UpperIsIdentity("IMAGE");
    }
  }

  /** An item typed by a non-empty kind upper-cased reads back as that kind upper-cased. */
  lemma KindUpper(url: string, kind: string)
    requires kind != ""
    ensures MediaType(Media(url, "", "", "", "", ToUpper(kind), "")) == ToUpper(kind)
  {
    assert |ToUpper(kind)| == |kind|;
    ToUpperIdempotent(kind);
  }

  /** Some item of `ms` has URL `u`. */
  predicate HasUrl(ms: seq<Media>, u: string) {
    exists j :: 0 <= j < |ms| && MediaUrl(ms[j]) == u
  }

  /** The merge step: each new item is appended unless an item with its URL
      is already there (counting the ones appended before it). */
  function MergeMedia(merged: seq<Media>, news: seq<Media>): (r: seq<Media>)
    ensures |merged| <= |r| && r[..|merged|] == merged
    ensures forall i :: |merged| <= i < |r| ==> r[i] in news && !HasUrl(r[..i], MediaUrl(r[i]))
    ensures forall m :: m in news ==> HasUrl(r, MediaUrl(m))
    decreases |news|
  {
    if |news| == 0 then merged
    else
      var m := news[0];
      var next := if HasUrl(merged, MediaUrl(m)) then merged else merged + [m];
      assert HasUrl(next, MediaUrl(m)) by {
        if !HasUrl(merged, MediaUrl(m)) {
          assert next[|merged|] == m;
        }
      }
      assert next[..|merged|] == merged;
      var r := MergeMedia(next, news[1..]);
      assert r[..|next|] == next;
      assert forall i :: |merged| <= i < |next| ==> r[i] == m && r[..i] == merged;
      assert forall u :: HasUrl(next, u) ==> HasUrl(r, u) by {
        forall u | HasUrl(next, u) ensures HasUrl(r, u) {
          var j :| 0 <= j < |next| && MediaUrl(next[j]) == u;
          assert r[j] == next[j];
        }
      }
      assert r[..|merged|] == merged by {
        assert r[..|merged|] == r[..|next|][..|merged|];
      }
      r
  }

  /** Every item of a merge is an old item or a new one. */
  lemma MergeFrom(merged: seq<Media>, news: seq<Media>, m: Media)
    requires m in MergeMedia(merged, news)
    ensures m in merged || m in news
  {
    var r := MergeMedia(merged, news);
    var p :| 0 <= p < |r| && r[p] == m;
    if p < |merged| {
      assert r[..|merged|][p] == m;
    }
  }

  function Abs(x: int): nat { if x < 0 then -x else x }

  /** An entry joins a group whose anchor has its description and lies
      less than ten seconds from it. */
  predicate Joins(g: UiEntry, e: UiEntry) {
    g.description == e.description && Abs(g.createdAt - e.createdAt) < 10000
  }

  /** No group could have joined an earlier one. */
  predicate AnchorsApart(groups: seq<UiEntry>) {
    forall i, j :: 0 <= i < j < |groups| ==> !Joins(groups[i], groups[j])
  }

  /** A group's `media` is what `getEntryMedia` reads back from it. */
  predicate Settled(groups: seq<UiEntry>) {
    forall i :: 0 <= i < |groups| ==> EntryMedia(groups[i]) == groups[i].media
  }

  /** Some group shows URL `u`. */
  predicate Shown(groups: seq<UiEntry>, u: string) {
    exists k :: 0 <= k < |groups| && HasUrl(groups[k].media, u)
  }

  /** Every file of every entry in `es` is shown by some group. */
  predicate Covered(groups: seq<UiEntry>, es: seq<UiEntry>) {
    forall i, m :: 0 <= i < |es| && m in EntryMedia(es[i]) ==> Shown(groups, MediaUrl(m))
  }

  /** Group `k` is the first that `e` joins. */
  predicate FirstJoined(groups: seq<UiEntry>, e: UiEntry, k: int) {
    0 <= k < |groups| && Joins(groups[k], e) && forall q :: 0 <= q < k ==> !Joins(groups[q], e)
  }

  /** Adding one entry: it merges its media into the first group it joins,
      else it starts a new group (a copy of itself with its media). */
  function Place(groups: seq<UiEntry>, e: UiEntry): (r: seq<UiEntry>)
    ensures |r| == |groups| || |r| == |groups| + 1
    ensures |r| == |groups| + 1 <==> forall k :: 0 <= k < |groups| ==> !Joins(groups[k], e)
    ensures forall k :: 0 <= k < |groups| ==>
              r[k].description == groups[k].description && r[k].createdAt == groups[k].createdAt
    ensures |r| == |groups| + 1 ==> r[..|groups|] == groups && r[|groups|] == e.(media := EntryMedia(e))
    ensures forall k :: FirstJoined(groups, e, k) ==>
              && |r| == |groups|
              && r[k] == groups[k].(media := MergeMedia(EntryMedia(groups[k]), EntryMedia(e)))
              && forall j :: 0 <= j < |groups| && j != k ==> r[j] == groups[j]
  {
    match IndexWhere(groups, (g: UiEntry) => Joins(g, e))
    case None => groups + [e.(media := EntryMedia(e))]
    case Some(k) =>
      groups[k := groups[k].(media := MergeMedia(EntryMedia(groups[k]), EntryMedia(e)))]
  }

  lemma PlaceApart(groups: seq<UiEntry>, e: UiEntry)
    requires AnchorsApart(groups)
    ensures AnchorsApart(Place(groups, e))
  {
    var r := Place(groups, e);
    forall i, j | 0 <= i < j < |r| ensures !Joins(r[i], r[j]) {
      if j == |groups| {
        assert !Joins(groups[i], e);
      } else {
        assert !Joins(groups[i], groups[j]);
      }
    }
  }

  lemma NewGroupSettled(e: UiEntry)
    ensures EntryMedia(e.(media := EntryMedia(e))) == EntryMedia(e)
  {
  }

  lemma MergedGroupSettled(g: UiEntry, news: seq<Media>)
    requires EntryMedia(g) == g.media
    ensures var g' := g.(media := MergeMedia(g.media, news)); EntryMedia(g') == g'.media
  {
    var merged := MergeMedia(g.media, news);
    if |merged| == 0 {
      assert |g.media| == 0;
    }
  }

  lemma PlaceSettled(groups: seq<UiEntry>, e: UiEntry)
    requires Settled(groups)
    ensures Settled(Place(groups, e))
  {
    match IndexWhere(groups, (g: UiEntry) => Joins(g, e))
    case None => NewGroupSettled(e);
    case Some(k) => MergedGroupSettled(groups[k], EntryMedia(e));
  }

  /** What a group showed before placing `e`, it still shows. */
  lemma PlaceKeeps(groups: seq<UiEntry>, e: UiEntry, k: nat, u: string)
    requires Settled(groups) && k < |groups| && HasUrl(groups[k].media, u)
    ensures HasUrl(Place(groups, e)[k].media, u)
  {
    var r := Place(groups, e);
    var j :| 0 <= j < |groups[k].media| && MediaUrl(groups[k].media[j]) == u;
    if r[k] != groups[k] {
      var merged := MergeMedia(groups[k].media, EntryMedia(e));
      assert r[k].media == merged;
      assert merged[..|groups[k].media|] == groups[k].media;
      assert merged[j] == groups[k].media[j];
    }
  }

  /** Some group shows every file of the entry just placed. */
  lemma PlaceShowsNew(groups: seq<UiEntry>, e: UiEntry) returns (k: nat)
    requires Settled(groups)
    ensures k < |Place(groups, e)|
    ensures forall m :: m in EntryMedia(e) ==> HasUrl(Place(groups, e)[k].media, MediaUrl(m))
  {
    var r := Place(groups, e);
    match IndexWhere(groups, (g: UiEntry) => Joins(g, e))
    case None =>
      k := |groups|;
      forall m | m in EntryMedia(e) ensures HasUrl(r[k].media, MediaUrl(m)) {
        var j :| 0 <= j < |EntryMedia(e)| && EntryMedia(e)[j] == m;
        assert MediaUrl(r[k].media[j]) == MediaUrl(m);
      }
    case Some(q) =>
      k := q;
      assert r[k].media == MergeMedia(groups[k].media, EntryMedia(e));
  }

  lemma PlaceCovers(groups: seq<UiEntry>, done: seq<UiEntry>, e: UiEntry)
    requires Settled(groups) && Covered(groups, done)
    ensures Covered(Place(groups, e), done + [e])
  {
    var r := Place(groups, e);
    var all := done + [e];
    var kn := PlaceShowsNew(groups, e);
    forall i, m | 0 <= i < |all| && m in EntryMedia(all[i])
      ensures Shown(r, MediaUrl(m))
    {
      if i < |done| {
        assert all[i] == done[i];
        var k :| 0 <= k < |groups| && HasUrl(groups[k].media, MediaUrl(m));
        PlaceKeeps(groups, e, k, MediaUrl(m));
      } else {
        assert all[i] == e;
        assert HasUrl(r[kn].media, MediaUrl(m));
      }
    }
  }

  /** The `forEach` over the sorted entries. */
  function GroupAll(groups: seq<UiEntry>, es: seq<UiEntry>): (r: seq<UiEntry>)
    ensures |groups| <= |r| <= |groups| + |es|
    ensures |es| > 0 ==> |r| >= 1
    ensures AnchorsApart(groups) ==> AnchorsApart(r)
    decreases |es|
  {
    if |es| == 0 then groups
    else
      var next := Place(groups, es[0]);
      assert AnchorsApart(groups) ==> AnchorsApart(next) by {
        if AnchorsApart(groups) { PlaceApart(groups, es[0]); }
      }
      GroupAll(next, es[1..])
  }

  lemma {:induction false} GroupAllCovers(groups: seq<UiEntry>, done: seq<UiEntry>, es: seq<UiEntry>)
    requires Settled(groups) && Covered(groups, done)
    ensures Covered(GroupAll(groups, es), done + es)
    decreases |es|
  {
    if |es| == 0 {
      assert done + es == done;
    } else {
      var next := Place(groups, es[0]);
      var done' := done + [es[0]];
      assert done' + es[1..] == done + es;
      assert GroupAll(groups, es) == GroupAll(next, es[1..]);
      PlaceSettled(groups, es[0]);
      PlaceCovers(groups, done, es[0]);
      GroupAllCovers(next, done', es[1..]);
    }
  }

  function CreatedAt(e: UiEntry): int { e.createdAt }

  /** Every group is at least as new as every entry still to be placed. */
  predicate Precedes(groups: seq<UiEntry>, es: seq<UiEntry>) {
    forall i, j :: 0 <= i < |groups| && 0 <= j < |es| ==> groups[i].createdAt >= es[j].createdAt
  }

  /** Placing an entry no newer than any group keeps the groups newest first. */
  lemma PlaceNewestFirst(groups: seq<UiEntry>, e: UiEntry)
    requires SortedDesc(groups, CreatedAt)
    requires forall i :: 0 <= i < |groups| ==> groups[i].createdAt >= e.createdAt
    ensures SortedDesc(Place(groups, e), CreatedAt)
  {
    var r := Place(groups, e);
    forall i, j | 0 <= i < j < |r| ensures CreatedAt(r[i]) >= CreatedAt(r[j]) {
      assert CreatedAt(r[i]) == CreatedAt(groups[i]);
      if j < |groups| {
        assert CreatedAt(groups[i]) >= CreatedAt(groups[j]);
      }
    }
  }

  /** Placing newest-first entries one by one keeps the groups newest first. */
  lemma {:induction false} GroupAllNewestFirst(groups: seq<UiEntry>, es: seq<UiEntry>)
    requires SortedDesc(groups, CreatedAt) && SortedDesc(es, CreatedAt) && Precedes(groups, es)
    ensures SortedDesc(GroupAll(groups, es), CreatedAt)
    decreases |es|
  {
    if |es| > 0 {
      var next := Place(groups, es[0]);
      PlaceNewestFirst(groups, es[0]);
      forall i, j | 0 <= i < |next| && 0 <= j < |es[1..]| ensures next[i].createdAt >= es[1..][j].createdAt {
        assert es[1..][j] == es[j + 1];
        assert CreatedAt(es[0]) >= CreatedAt(es[j + 1]);
        if i < |groups| {
          assert next[i].createdAt == groups[i].createdAt;
        }
      }
      assert SortedDesc(es[1..], CreatedAt) by {
        forall i, j | 0 <= i < j < |es[1..]| ensures CreatedAt(es[1..][i]) >= CreatedAt(es[1..][j]) {
          assert es[1..][i] == es[i + 1] && es[1..][j] == es[j + 1];
        }
      }
      GroupAllNewestFirst(next, es[1..]);
    }
  }

  /** Every item a group shows is an item of some entry of `es`. */
  predicate Sourced(groups: seq<UiEntry>, es: seq<UiEntry>) {
    forall k, m :: 0 <= k < |groups| && m in groups[k].media ==>
      exists i :: 0 <= i < |es| && m in EntryMedia(es[i])
  }

  /** Placing `e` shows only items already shown or items of `e`. */
  lemma PlaceSourced(groups: seq<UiEntry>, done: seq<UiEntry>, e: UiEntry)
    requires Settled(groups) && Sourced(groups, done)
    ensures Sourced(Place(groups, e), done + [e])
  {
    var r := Place(groups, e);
    var all := done + [e];
    assert all[|done|] == e;
    forall k, m | 0 <= k < |r| && m in r[k].media
      ensures exists i :: 0 <= i < |all| && m in EntryMedia(all[i])
    {
      if k < |groups| && m in groups[k].media {
        var i :| 0 <= i < |done| && m in EntryMedia(done[i]);
        assert all[i] == done[i];
      } else {
        PlaceAddsOnlyNew(groups, e, k, m);
        assert m in EntryMedia(all[|done|]);
      }
    }
  }

  /** An item a group shows after placing `e` that it did not show before
      is an item of `e`. */
  lemma PlaceAddsOnlyNew(groups: seq<UiEntry>, e: UiEntry, k: int, m: Media)
    requires Settled(groups)
    requires 0 <= k < |Place(groups, e)| && m in Place(groups, e)[k].media
    requires k < |groups| ==> m !in groups[k].media
    ensures m in EntryMedia(e)
  {
    var r := Place(groups, e);
    if k < |groups| {
      match IndexWhere(groups, (g: UiEntry) => Joins(g, e))
      case None =>
      case Some(q) =>
        if q == k {
          MergeFrom(groups[k].media, EntryMedia(e), m);
        }
    }
  }

  lemma {:induction false} GroupAllSourced(groups: seq<UiEntry>, done: seq<UiEntry>, es: seq<UiEntry>)
    requires Settled(groups) && Sourced(groups, done)
    ensures Sourced(GroupAll(groups, es), done + es)
    decreases |es|
  {
    if |es| == 0 {
      assert done + es == done;
    } else {
      var next := Place(groups, es[0]);
      var done' := done + [es[0]];
      assert done' + es[1..] == done + es;
      PlaceSettled(groups, es[0]);
      PlaceSourced(groups, done, es[0]);
      GroupAllSourced(next, done', es[1..]);
    }
  }

  /** `getGroupedEntries`: newest first, then grouped. */
  function GroupedEntries(entries: seq<UiEntry>): (groups: seq<UiEntry>)
    ensures |groups| <= |entries|
    ensures |entries| > 0 ==> |groups| >= 1
    ensures AnchorsApart(groups)
    ensures forall i, j :: 0 <= i < j < |groups| ==> groups[i].createdAt >= groups[j].createdAt
  {
    var sorted := SortDesc(entries, CreatedAt);
    GroupAllNewestFirst([], sorted);
    GroupAll([], sorted)
  }

  /** Coverage depends only on which entries there are. */
  lemma CoveredSubset(groups: seq<UiEntry>, a: seq<UiEntry>, b: seq<UiEntry>)
    requires Covered(groups, a)
    requires forall x :: x in b ==> x in a
    ensures Covered(groups, b)
  {
    forall i, m | 0 <= i < |b| && m in EntryMedia(b[i])
      ensures Shown(groups, MediaUrl(m))
    {
      assert b[i] in a;
      var j :| 0 <= j < |a| && a[j] == b[i];
      assert m in EntryMedia(a[j]);
    }
  }

  /** Grouping loses no file: every media URL of every entry is shown by
      some group. */
  lemma GroupingKeepsEveryFile(entries: seq<UiEntry>)
    ensures Covered(GroupedEntries(entries), entries)
  {
    var sorted := SortDesc(entries, CreatedAt);
    GroupAllCovers([], [], sorted);
    assert [] + sorted == sorted;
    SortDescSameElements(entries, CreatedAt);
    CoveredSubset(GroupAll([], sorted), sorted, entries);
  }

  /** Grouping invents no file: every item a group shows is an item of some
      entry. */
  lemma GroupingInventsNoFile(entries: seq<UiEntry>)
    ensures forall k, m :: 0 <= k < |GroupedEntries(entries)| && m in GroupedEntries(entries)[k].media ==>
              exists i :: 0 <= i < |entries| && m in EntryMedia(entries[i])
  {
    var sorted := SortDesc(entries, CreatedAt);
    GroupAllSourced([], [], sorted);
    assert [] + sorted == sorted;
    SortDescSameElements(entries, CreatedAt);
    var groups := GroupedEntries(entries);
    forall k, m | 0 <= k < |groups| && m in groups[k].media
      ensures exists i :: 0 <= i < |entries| && m in EntryMedia(entries[i])
    {
      var i :| 0 <= i < |sorted| && m in EntryMedia(sorted[i]);
      assert sorted[i] in entries;
    }
  }

  predicate IsImage(m: Media) { MediaType(m) == "IMAGE" }

  /** `getBestCover`: the last image of the entry's media, else its first
      item, else nothing. */
  function BestCover(e: UiEntry): (c: Option<Media>)
    ensures c.None? <==> |EntryMedia(e)| == 0
    ensures c.Some? && IsImage(c.value) ==>
              exists k :: 0 <= k < |EntryMedia(e)| && EntryMedia(e)[k] == c.value
                          && forall j :: k < j < |EntryMedia(e)| ==> !IsImage(EntryMedia(e)[j])
    ensures (exists j :: 0 <= j < |EntryMedia(e)| && IsImage(EntryMedia(e)[j])) ==> c.Some? && IsImage(c.value)
    ensures |EntryMedia(e)| > 0 && (forall j :: 0 <= j < |EntryMedia(e)| ==> !IsImage(EntryMedia(e)[j])) ==>
              c == Some(EntryMedia(e)[0])
  {
    var media := EntryMedia(e);
    if |media| == 0 then None
    else
      match LastIndexWhere(media, IsImage)
      case Some(k) => Some(media[k])
      case None => Some(media[0])
  }

  /** The entries of `es` that belong in `folder`, in order. */
  function FolderEntries(es: seq<UiEntry>, folder: string): (r: seq<UiEntry>)
    ensures |r| <= |es|
    ensures forall e :: e in r <==> e in es && InFolder(e, folder)
  {
    if |es| == 0 then []
    else
      var rest := FolderEntries(es[1..], folder);
      assert forall e :: e in es <==> e == es[0] || e in es[1..];
      if InFolder(es[0], folder) then [es[0]] + rest else rest
  }

  /** A folder keeps the order and the repeats of the list: filing two lists
      one after the other files each in turn, and one entry is filed alone or
      dropped. */
  lemma {:induction false} FolderEntriesKeepOrder(a: seq<UiEntry>, b: seq<UiEntry>, folder: string)
    ensures FolderEntries(a + b, folder) == FolderEntries(a, folder) + FolderEntries(b, folder)
    ensures forall e :: FolderEntries([e], folder) == if InFolder(e, folder) then [e] else []
  {
    if |a| == 0 {
      assert a + b == b;
    } else {
      assert (a + b)[1..] == a[1..] + b;
      FolderEntriesKeepOrder(a[1..], b, folder);
    }
    forall e ensures FolderEntries([e], folder) == if InFolder(e, folder) then [e] else [] {
      assert [e][1..] == [];
    }
  }

  /** Whether an entry belongs in `folder`: the handover folder also holds
      certificates; any other key, TIMELINE included, holds its own category. */
  predicate InFolder(e: UiEntry, folder: string) {
    if folder == "HANDOVER" then EntryCategory(e) == "HANDOVER" || EntryCategory(e) == "CERTIFICATE"
    else EntryCategory(e) == folder
  }

  /** `getTimelineEntries`: the entries filed under TIMELINE (no list: none). */
  function TimelineEntries(entries: Option<seq<UiEntry>>): (r: seq<UiEntry>)
    ensures forall e :: e in r <==> e in entries.GetOr([]) && EntryCategory(e) == "TIMELINE"
  {
    FolderEntries(entries.GetOr([]), "TIMELINE")
  }

  /** The three folder keys, in display order. */
  const DocumentFolders: seq<string> := ["AGREEMENT", "PAYMENT_INVOICE", "HANDOVER"]

  /** `getDocumentEntries`. */
  function DocumentEntries(entries: Option<seq<UiEntry>>, folder: string): (r: seq<UiEntry>)
    ensures forall e :: e in r <==> e in entries.GetOr([]) && InFolder(e, folder)
    ensures folder in DocumentFolders ==> forall e :: e in r ==> EntryCategory(e) != "TIMELINE"
  {
    FolderEntries(entries.GetOr([]), folder)
  }

  /** `getTotalDocumentCount`: the three folder counts added up. The folders
      do not overlap, so each document entry is counted once; with the
      timeline the total never exceeds the number of entries. */
  function TotalDocumentCount(entries: Option<seq<UiEntry>>): (n: nat)
    ensures n == DocumentCount(entries.GetOr([]))
    ensures n + |TimelineEntries(entries)| <= |entries.GetOr([])|
  {
    FolderCounts(entries.GetOr([]));
    |DocumentEntries(entries, DocumentFolders[0])| + |DocumentEntries(entries, DocumentFolders[1])|
      + |DocumentEntries(entries, DocumentFolders[2])|
  }

  predicate IsDocument(e: UiEntry) {
    EntryCategory(e) in {"AGREEMENT", "PAYMENT_INVOICE", "HANDOVER", "CERTIFICATE"}
  }

  /** The number of document entries (any of the four document categories). */
  function DocumentCount(es: seq<UiEntry>): (n: nat)
    ensures n <= |es|
  {
    if |es| == 0 then 0 else (if IsDocument(es[0]) then 1 else 0) + DocumentCount(es[1..])
  }

  /** The three document folders together hold each document entry once. */
  lemma {:induction false} FolderCounts(es: seq<UiEntry>)
    ensures |FolderEntries(es, "AGREEMENT")| + |FolderEntries(es, "PAYMENT_INVOICE")|
            + |FolderEntries(es, "HANDOVER")| == DocumentCount(es)
    ensures DocumentCount(es) + |FolderEntries(es, "TIMELINE")| <= |es|
  {
    if |es| > 0 {
      FolderCounts(es[1..]);
    }
  }
}
