/** The multer upload middleware: where files are stored and under which name,
    which files the filter admits, the size cap, and how an `array(field, n)`
    upload walks the parts of a multipart request. */
module Upload {
  import opened Common
  import opened Text
  import opened ErrorHandler

  const UploadDir: string := "uploads/projects"

  /** The alternatives of the filter's regular expression, which is unanchored
      and has no global flag, so a test is a plain substring search. */
  const FileTypeTokens: seq<string> := ["jpeg", "jpg", "png", "webp", "mp4", "webm", "mov", "pdf"]

  /** `limits.fileSize`: 50 MiB. */
  const MaxFileSize: nat := 50 * 1024 * 1024

  /** The filter's error message (written in pieces only to keep proofs about
      its characters small). */
  const FilterMessage: string :=
    "Only images," + " videos and" + " PDFs are" + " allowed" + " (jpg, png," + " mp4, pdf," + " etc.)"

  /** `filetypes.test(s)`. */
  predicate TestFiletypes(s: string) {
    exists k :: 0 <= k < |FileTypeTokens| && Contains(s, FileTypeTokens[k])
  }

  // ------------------------------------------------------------ path.extname

  function TrimTrailingSlashes(p: string): (r: string)
    ensures |r| <= |p| && r == p[..|r|]
    ensures r == "" || r[|r| - 1] != '/'
    ensures forall i :: |r| <= i < |p| ==> p[i] == '/'
  {
    if |p| > 0 && p[|p| - 1] == '/' then TrimTrailingSlashes(p[..|p| - 1]) else p
  }

  /** The last path component. */
  function Basename(p: string): (b: string)
    ensures '/' !in b
    ensures EndsWith(p, b)
    ensures '/' !in p ==> b == p
  {
    match LastIndex(p, '/')
    case None => p
    case Some(i) => p[i + 1..]
  }

  /** The extension of one path component: from its last dot, unless there
      is none, the dot opens the component, or the component is "..". */
  function ComponentExt(b: string): (ext: string)
    ensures ext == "" || (ext[0] == '.' && '.' !in ext[1..])
    ensures |ext| <= |b| && ext == b[|b| - |ext|..]
  {
    match LastIndex(b, '.')
    case None => ""
    case Some(i) =>
      if i == 0 || b == ".." then ""
      else
        var ext := b[i..];
        assert '.' !in ext[1..] by {
          forall j | 0 <= j < |ext| - 1 ensures ext[1..][j] != '.' {
            assert ext[1..][j] == b[i + 1 + j];
          }
        }
        ext
  }

  /** Node's `path.extname` (POSIX): trailing slashes are ignored and the
      extension is taken of the last component. */
  function Extname(p: string): (ext: string)
    ensures ext == "" || (ext[0] == '.' && '.' !in ext[1..])
    ensures '/' !in ext
  {
    var b := Basename(TrimTrailingSlashes(p));
    var ext := ComponentExt(b);
    assert '/' !in ext by {
      forall j | 0 <= j < |ext| ensures ext[j] != '/' {
        assert ext[j] == b[|b| - |ext| + j];
      }
    }
    ext
  }

  /** The filter: the mimetype must mention a token (or be exactly
      application/pdf), and so must the lower-cased extension of the name the
      client sent. The two tests are independent of each other. */
  predicate FileFilter(mimetype: string, originalname: string)
    ensures FileFilter(mimetype, originalname) ==> |Extname(originalname)| >= 3 && |mimetype| >= 3
  {
    TestedNeedsToken(mimetype);
    TestedNeedsToken(ToLower(Extname(originalname)));
    (TestFiletypes(mimetype) || mimetype == "application/pdf")
    && TestFiletypes(ToLower(Extname(originalname)))
  }

  /** Every alternative of the regular expression is at least three
      characters long, so a shorter string matches none. */
  lemma TestedNeedsToken(s: string)
    ensures TestFiletypes(s) ==> |s| >= 3
  {
    if TestFiletypes(s) {
      var k :| 0 <= k < |FileTypeTokens| && Contains(s, FileTypeTokens[k]);
      assert |FileTypeTokens[k]| >= 3;
    }
  }

  /** The stored name: `Date.now()`, a dash, a random integer, and the
      original extension. */
  function StoredName(nowMs: nat, rand: nat, originalname: string): (name: string)
    ensures Extname(name) == Extname(originalname)
    ensures '/' !in name
  {
    var stem := NatToString(nowMs) + "-" + NatToString(rand);
    var ext := Extname(originalname);
    StemIsPlain(NatToString(nowMs), NatToString(rand));
    ExtnameOfJoin(stem, ext);
    assert '/' !in stem + ext by {
      forall i | 0 <= i < |stem + ext| ensures (stem + ext)[i] != '/' {
        if i < |stem| { assert (stem + ext)[i] == stem[i]; }
        else { assert (stem + ext)[i] == ext[i - |stem|]; }
      }
    }
    stem + ext
  }

  /** `path.join(destination, filename)`. */
  function StoredPath(filename: string): (p: string)
    ensures StartsWith(p, UploadDir + "/")
  {
    UploadDir + "/" + filename
  }

  lemma LastIndexAt(s: string, c: char, i: nat)
    requires i < |s| && s[i] == c
    requires forall j :: i < j < |s| ==> s[j] != c
    ensures LastIndex(s, c) == Some(i)
  {
    assert c in s;
  }

  /** A name without slashes is its own last component. */
  lemma PlainBasename(s: string)
    requires '/' !in s
    ensures TrimTrailingSlashes(s) == s && Basename(s) == s
  {
    if |s| > 0 {
      assert s[|s| - 1] in s;
    }
  }

  /** Putting a slash- and dot-free stem before an extension gives back that
      extension. */
  lemma {:induction false} ExtnameOfJoin(stem: string, ext: string)
    requires |stem| > 0 && '/' !in stem && '.' !in stem
    requires ext == "" || (ext[0] == '.' && '/' !in ext && '.' !in ext[1..])
    ensures Extname(stem + ext) == ext
  {
    var s := stem + ext;
    assert '/' !in s by {
      forall i | 0 <= i < |s| ensures s[i] != '/' {
        if i < |stem| { assert s[i] == stem[i]; } else { assert s[i] == ext[i - |stem|]; }
      }
    }
    PlainBasename(s);
    if ext == "" {
      assert s == stem;
    } else {
      forall j | |stem| < j < |s| ensures s[j] != '.' {
        assert s[j] == ext[1..][j - |stem| - 1];
      }
      assert s[|stem|] == '.';
      assert s[0] == stem[0] && stem[0] in stem;
      LastIndexAt(s, '.', |stem|);
      assert s[|stem|..] == ext;
    }
  }

  /** The stem of a stored name: the time, a dash and the random number. */
  lemma StemIsPlain(a: string, b: string)
    requires forall i :: 0 <= i < |a| ==> '0' <= a[i] <= '9'
    requires forall i :: 0 <= i < |b| ==> '0' <= b[i] <= '9'
    ensures var stem := a + "-" + b; |stem| > 0 && '/' !in stem && '.' !in stem
  {
    var stem := a + "-" + b;
    forall i | 0 <= i < |stem| ensures stem[i] != '/' && stem[i] != '.' {
      if i < |a| { assert stem[i] == a[i]; }
      else if i > |a| { assert stem[i] == b[i - |a| - 1]; }
    }
  }

  /** `t` cannot occur in `m` when no two adjacent characters of `m` match the
      first two of `t`. */
  lemma NoOccurrenceByPair(m: string, t: string)
    requires |t| >= 2
    requires forall i :: 0 <= i < |m| - 1 ==> !(m[i] == t[0] && m[i + 1] == t[1])
    ensures !Contains(m, t)
  {
    forall i | 0 <= i <= |m| - |t| ensures !OccursAt(m, t, i) {
      var w := m[i..i + |t|];
      assert w[0] == m[i] && w[1] == m[i + 1];
    }
  }

  /** The filter's mimetype alternative for exactly "application/pdf" adds
      nothing: the token search already accepts it. */
  lemma PdfAlternativeRedundant()
    ensures TestFiletypes("application/pdf")
  {
    assert OccursAt("application/pdf", "pdf", 12);
    assert FileTypeTokens[7] == "pdf";
  }

  /** None of the tokens occurs in the QuickTime mimetype. */
  lemma QuickTimeHasNoToken()
    ensures !TestFiletypes("video/quicktime")
  {
    var m := "video/quicktime";
    forall i | 0 <= i < |m| - 1
      ensures m[i] != 'j' && m[i] != 'p' && m[i] != 'w' && (m[i] == 'm' ==> m[i + 1] == 'e')
    {
    }
    forall k | 0 <= k < |FileTypeTokens| ensures !Contains(m, FileTypeTokens[k]) {
      if k == 0 { NoOccurrenceByPair(m, "jpeg"); }
      else if k == 1 { NoOccurrenceByPair(m, "jpg"); }
      else if k == 2 { NoOccurrenceByPair(m, "png"); }
      else if k == 3 { NoOccurrenceByPair(m, "webp"); }
      else if k == 4 { NoOccurrenceByPair(m, "mp4"); }
      else if k == 5 { NoOccurrenceByPair(m, "webm"); }
      else if k == 6 { NoOccurrenceByPair(m, "mov"); }
      else { NoOccurrenceByPair(m, "pdf"); }
    }
  }

  /** A dot followed by a token passes the token search. */
  lemma DotTokenPasses(ext: string, k: nat)
    requires k < |FileTypeTokens| && |ext| > 0 && ext[1..] == FileTypeTokens[k]
    ensures TestFiletypes(ext)
  {
    assert OccursAt(ext, FileTypeTokens[k], 1);
  }

  /** A name passes the extension test when its extension, lower-cased, passes the token search. */
  lemma ExtensionPasses(stem: string, ext: string, lower: string)
    requires |stem| > 0 && '/' !in stem && '.' !in stem
    requires ext == "" || (ext[0] == '.' && '/' !in ext && '.' !in ext[1..])
    requires ToLower(ext) == lower && TestFiletypes(lower)
    ensures TestFiletypes(ToLower(Extname(stem + ext)))
  {
    ExtnameOfJoin(stem, ext);
  }

  /** A lower-case extension that names a token passes the extension test. */
  lemma TokenExtensionPasses(stem: string, ext: string, k: nat)
    requires |stem| > 0 && '/' !in stem && '.' !in stem
    requires |ext| > 0 && ext[0] == '.' && '/' !in ext && '.' !in ext[1..]
    requires forall i :: 0 <= i < |ext| ==> !('A' <= ext[i] <= 'Z')
    requires k < |FileTypeTokens| && ext[1..] == FileTypeTokens[k]
    ensures TestFiletypes(ToLower(Extname(stem + ext)))
  {
    ExtnameOfJoin(stem, ext);
    LowerIsIdentity(ext);
    DotTokenPasses(ext, k);
  }

  /** Lower-casing a string without capitals leaves it as it is. */
  lemma LowerIsIdentity(s: string)
    requires forall i :: 0 <= i < |s| ==> !('A' <= s[i] <= 'Z')
    ensures ToLower(s) == s
  {
    var r := ToLower(s);
    assert forall i :: 0 <= i < |s| ==> r[i] == s[i];
  }

  /** The QuickTime mimetype fails the mimetype test. */
  lemma QuickTimeMimeRefused()
    ensures !(TestFiletypes("video/quicktime") || "video/quicktime" == "application/pdf")
  {
    QuickTimeHasNoToken();
    assert "video/quicktime"[0] != "application/pdf"[0];
  }

  /** A QuickTime video is refused even with a `.mov` name: its mimetype
      contains none of the tokens, while the extension alone would pass. */
  lemma QuickTimeRefused(stem: string)
    requires |stem| > 0 && '/' !in stem && '.' !in stem
    ensures TestFiletypes(ToLower(Extname(stem + ".mov")))
    ensures !FileFilter("video/quicktime", stem + ".mov")
  {
    assert ".mov"[1..] == FileTypeTokens[6];
    TokenExtensionPasses(stem, ".mov", 6);
    QuickTimeMimeRefused();
  }

  /** The mimetype of a PNG passes the mimetype test. */
  lemma PngMimeAdmitted()
    ensures TestFiletypes("image/png")
  {
    assert OccursAt("image/png", "png", 6);
    assert FileTypeTokens[2] == "png";
  }

  lemma LowerMp4()
    ensures ToLower(".MP4") == ".mp4"
  {
    var r := ToLower(".MP4");
    assert r[0] == '.' && r[1] == 'm' && r[2] == 'p' && r[3] == '4';
  }

  /** The extension is compared case-insensitively, and the mimetype and the
      extension need not agree: a PNG named `.MP4` passes. */
  lemma FilterIgnoresPairing(stem: string)
    requires |stem| > 0 && '/' !in stem && '.' !in stem
    ensures FileFilter("image/png", stem + ".MP4")
  {
    PngMimeAdmitted();
    LowerMp4();
    assert ".mp4"[1..] == FileTypeTokens[4];
    DotTokenPasses(".mp4", 4);
    ExtensionPasses(stem, ".MP4", ".mp4");
  }

  // ----------------------------------------------------------- upload.array

  /** One file part of a multipart request, as the client sent it. */
  datatype Part = Part(fieldname: string, originalname: string, mimetype: string, size: nat)

  /** A file multer wrote to disk (`req.files[i]`). */
  datatype StoredFile = StoredFile(fieldname: string, originalname: string, mimetype: string, size: nat,
                                   filename: string, path: string)

  /** The outcome of the upload middleware: the stored files and the disk
      after writing them, or the error handed to `next` (multer then removes
      the files it had written, so the disk is as before). */
  datatype Upload = Received(files: seq<StoredFile>, disk: set<string>) | Aborted(err: Failure)

  /** A part with an empty file name is skipped without being stored or counted. */
  function Named(parts: seq<Part>): (r: seq<Part>)
    ensures forall i :: 0 <= i < |r| ==> r[i].originalname != "" && r[i] in parts
  {
    Filter(parts, (p: Part) => p.originalname != "")
  }

  /** What the middleware checks of one counted part, in its order. */
  predicate Admissible(p: Part, field: string) {
    p.fieldname == field && FileFilter(p.mimetype, p.originalname) && p.size <= MaxFileSize
  }

  /** Every part would be accepted: within the count, in the field, admitted
      by the filter and within the size cap. */
  predicate AllAdmissible(parts: seq<Part>, field: string, left: nat) {
    |Named(parts)| <= left && forall i :: 0 <= i < |Named(parts)| ==> Admissible(Named(parts)[i], field)
  }

  /** The three errors an upload can end with. */
  const UploadErrors: set<Failure> := {
    Failure(Some(UnexpectedFileCode), "Unexpected field", None),
    Failure(None, FilterMessage, None),
    Failure(Some("LIMIT_FILE_SIZE"), "File too large", None)
  }

  /** The part is refused before the filter runs: it comes in another field,
      or the count is used up (a 21st file for `upload.array('media', 20)`). */
  predicate Unexpected(p: Part, field: string, left: nat) {
    left == 0 || p.fieldname != field
  }

  /** The part passes the field and count test, and the filter refuses it. */
  predicate RefusedType(p: Part, field: string, left: nat) {
    !Unexpected(p, field, left) && !FileFilter(p.mimetype, p.originalname)
  }

  /** Element `i` is the first of `s` that fails: every earlier one passes
      `ok` within `limit`, and this one fails `ok` or is over the limit. */
  predicate FirstFailing<T>(s: seq<T>, ok: T -> bool, limit: nat, i: int) {
    && 0 <= i < |s| && i <= limit
    && (forall j :: 0 <= j < i ==> ok(s[j]))
    && (i == limit || !ok(s[i]))
  }

  /** The position of the first element of `s` that fails `ok`, or of the
      element at position `limit` if all before it pass; none when every
      element passes and there are at most `limit` of them. */
  function FirstFailure<T>(s: seq<T>, ok: T -> bool, limit: nat): (r: Option<nat>)
    ensures r.Some? ==> FirstFailing(s, ok, limit, r.value)
    ensures r.None? <==> |s| <= limit && forall j :: 0 <= j < |s| ==> ok(s[j])
    decreases |s|
  {
    if |s| == 0 then None
    else if limit == 0 || !ok(s[0]) then Some(0)
    else
      AllCons(s[0], s[1..], ok);
      assert [s[0]] + s[1..] == s;
      match FirstFailure(s[1..], ok, limit - 1)
      case None => None
      case Some(j) =>
        FirstFailingCons(s, ok, limit, j);
        Some(j + 1)
  }

  /** The search on `[x] + s` looks at `x`, then goes on in `s`. */
  lemma FirstFailureCons<T>(x: T, s: seq<T>, ok: T -> bool, limit: nat)
    ensures FirstFailure([x] + s, ok, limit) ==
              if limit == 0 || !ok(x) then Some(0)
              else match FirstFailure(s, ok, limit - 1) case None => None case Some(j) => Some(j + 1)
    ensures forall j :: 0 <= j < |s| ==> ([x] + s)[j + 1] == s[j]
  {
    assert ([x] + s)[0] == x && ([x] + s)[1..] == s;
  }

  /** After a passing head, the first failing element moves one position on. */
  lemma FirstFailingCons<T>(s: seq<T>, ok: T -> bool, limit: nat, i: int)
    requires |s| > 0 && limit > 0 && ok(s[0]) && FirstFailing(s[1..], ok, limit - 1, i)
    ensures FirstFailing(s, ok, limit, i + 1) && s[i + 1] == s[1..][i]
  {
    forall j | 0 <= j < i + 1 ensures ok(s[j]) {
      if j > 0 { assert s[j] == s[1..][j - 1]; }
    }
  }

  function AdmissibleIn(field: string): Part -> bool {
    (p: Part) => Admissible(p, field)
  }

  /** Named part `i` is the first the middleware refuses: every earlier one
      was counted and admitted, and this one is over the count or not
      admissible. */
  predicate FirstOffender(named: seq<Part>, field: string, left: nat, i: int) {
    FirstFailing(named, AdmissibleIn(field), left, i)
  }

  /** There is at most one first offender. */
  lemma FirstOffenderUnique(named: seq<Part>, field: string, left: nat, i: int, k: int)
    requires FirstOffender(named, field, left, i) && FirstOffender(named, field, left, k)
    ensures i == k
  {
  }

  /** The error raised for the first offending part: the field and count
      test comes first, then the filter, then the size cap. */
  function PartError(p: Part, field: string, left: nat): (err: Failure)
    requires left == 0 || !Admissible(p, field)
    ensures err.code == Some(UnexpectedFileCode) <==> Unexpected(p, field, left)
    ensures err.code.None? <==> RefusedType(p, field, left)
    ensures err.code.None? ==> err.message == FilterMessage
    ensures err.code == Some("LIMIT_FILE_SIZE") <==>
              !Unexpected(p, field, left) && FileFilter(p.mimetype, p.originalname) && p.size > MaxFileSize
    ensures err in UploadErrors
  {
    if p.fieldname != field || left == 0 then Failure(Some(UnexpectedFileCode), "Unexpected field", None)
    else if !FileFilter(p.mimetype, p.originalname) then Failure(None, FilterMessage, None)
    else Failure(Some("LIMIT_FILE_SIZE"), "File too large", None)
  }

  /** The file a part becomes once written. */
  predicate StoredFrom(f: StoredFile, p: Part) {
    && f.fieldname == p.fieldname && f.originalname == p.originalname
    && f.mimetype == p.mimetype && f.size == p.size
    && f.path == StoredPath(f.filename)
    && Extname(f.filename) == Extname(p.originalname)
  }

  function Paths(files: seq<StoredFile>): (ps: set<string>)
    ensures forall i :: 0 <= i < |files| ==> files[i].path in ps
  {
    if |files| == 0 then {} else {files[0].path} + Paths(files[1..])
  }

  lemma NamedCons(parts: seq<Part>)
    requires |parts| > 0
    ensures parts[0].originalname == "" ==> Named(parts) == Named(parts[1..])
    ensures parts[0].originalname != "" ==> Named(parts) == [parts[0]] + Named(parts[1..])
  {
  }

  /** `upload.array(field, maxCount)` over the parts in arrival order: each
      named part must come in `field` while the count lasts, pass the filter
      and stay within the size cap; it is then written under a fresh name.
      `rands[i]` stands for the random number drawn for part `i`. */
  function Receive(parts: seq<Part>, field: string, left: nat, nowMs: nat, rands: seq<nat>, disk: set<string>): (u: Upload)
    requires |rands| == |parts|
    ensures u.Received? <==> AllAdmissible(parts, field, left)
    ensures u.Received? ==>
              && |u.files| == |Named(parts)|
              && (forall i :: 0 <= i < |u.files| ==> StoredFrom(u.files[i], Named(parts)[i]))
              && u.disk == disk + Paths(u.files)
    ensures u.Aborted? ==> u.err in UploadErrors
    ensures u.Aborted? ==> AbortOf(Named(parts), field, left) == Some(u.err)
    decreases |parts|
  {
    if |parts| == 0 then Received([], disk)
    else
      var p := parts[0];
      var rest := parts[1..];
      NamedCons(parts);
      if p.originalname == "" then
        Receive(rest, field, left, nowMs, rands[1..], disk)
      else
        AdmissibleCons(parts, field, left);
        AbortOfCons(p, Named(rest), field, left);
        if left == 0 || !Admissible(p, field) then
          Aborted(PartError(p, field, left))
        else
          var name := StoredName(nowMs, rands[0], p.originalname);
          var f := StoredFile(p.fieldname, p.originalname, p.mimetype, p.size, name, StoredPath(name));
          match Receive(rest, field, left - 1, nowMs, rands[1..], disk + {f.path})
          case Aborted(e) => Aborted(e)
          case Received(files, d) =>
            StoredCons(f, p, files, Named(rest));
            PathsCons(f, files, disk);
            Received([f] + files, d)
  }

  /** An aborted upload ends with the error of its first offending named
      part: earlier parts were all admitted, and none after it is looked at. */
  lemma ReceiveAbortsAtFirstOffender(parts: seq<Part>, field: string, left: nat, nowMs: nat,
                                     rands: seq<nat>, disk: set<string>)
    requires |rands| == |parts|
    ensures var u := Receive(parts, field, left, nowMs, rands, disk);
            u.Aborted? ==> exists i :: AbortsAt(Named(parts), field, left, i, u.err)
  {
    AbortOfFindsFirstOffender(Named(parts), field, left);
  }

  /** The error of the first named part the middleware refuses, if any: a
      part beyond the remaining count, in another field, refused by the
      filter or over the size cap. */
  function AbortOf(named: seq<Part>, field: string, left: nat): Option<Failure>
  {
    match FirstFailure(named, AdmissibleIn(field), left)
    case None => None
    case Some(i) => Some(PartError(named[i], field, left - i))
  }

  /** The search reports an error exactly when some named part is over the
      count or not admissible, and the error it reports is that of the
      first offender. */
  lemma AbortOfFindsFirstOffender(named: seq<Part>, field: string, left: nat)
    ensures AbortOf(named, field, left).None? <==>
              |named| <= left && forall j :: 0 <= j < |named| ==> Admissible(named[j], field)
    ensures AbortOf(named, field, left).Some? ==>
              && AbortOf(named, field, left).value in UploadErrors
              && exists i :: AbortsAt(named, field, left, i, AbortOf(named, field, left).value)
  {
    match FirstFailure(named, AdmissibleIn(field), left)
    case None =>
    case Some(i) =>
      assert AbortsAt(named, field, left, i, PartError(named[i], field, left - i));
  }

  lemma AbortOfCons(p: Part, named: seq<Part>, field: string, left: nat)
    ensures AbortOf([p] + named, field, left) ==
              if left == 0 || !Admissible(p, field) then Some(PartError(p, field, left)) else AbortOf(named, field, left - 1)
  {
    FirstFailureCons(p, named, AdmissibleIn(field), left);
  }

  /** `e` is the error of the part at `i`, which is the first offender. */
  predicate AbortsAt(named: seq<Part>, field: string, left: nat, i: int, e: Failure) {
    FirstOffender(named, field, left, i) && e == PartError(named[i], field, left - i)
  }

  lemma AdmissibleCons(parts: seq<Part>, field: string, left: nat)
    requires |parts| > 0 && parts[0].originalname != ""
    ensures AllAdmissible(parts, field, left) <==>
              left > 0 && Admissible(parts[0], field) && AllAdmissible(parts[1..], field, left - 1)
  {
    NamedCons(parts);
    AllConsWithin(parts[0], Named(parts[1..]), AdmissibleIn(field), left);
  }

  /** `[x] + r` has at most `limit` elements, all passing `P`, exactly when
      `x` passes and `r` has at most `limit - 1`, all passing. */
  lemma AllConsWithin<T>(x: T, r: seq<T>, P: T -> bool, limit: nat)
    ensures (|[x] + r| <= limit && forall i :: 0 <= i < |[x] + r| ==> P(([x] + r)[i])) <==>
              limit > 0 && P(x) && |r| <= limit - 1 && forall i :: 0 <= i < |r| ==> P(r[i])
  {
    AllCons(x, r, P);
  }

  /** A property holds of every element of `[x] + r` exactly when it holds
      of `x` and of every element of `r`. */
  lemma AllCons<T>(x: T, r: seq<T>, P: T -> bool)
    ensures (forall i :: 0 <= i < |[x] + r| ==> P(([x] + r)[i])) <==> P(x) && forall i :: 0 <= i < |r| ==> P(r[i])
  {
    var n := [x] + r;
    assert n[0] == x;
    assert forall i :: 0 <= i < |r| ==> n[i + 1] == r[i];
    if P(x) && forall i :: 0 <= i < |r| ==> P(r[i]) {
      forall i | 0 <= i < |n| ensures P(n[i]) {
        if i > 0 { assert n[i] == r[i - 1]; }
      }
    }
  }

  /** Two sequences related position by position stay so when each gets a
      related head. */
  lemma PairwiseCons<A, B>(x: A, y: B, xs: seq<A>, ys: seq<B>, rel: (A, B) -> bool)
    requires rel(x, y)
    requires |xs| == |ys| && forall i :: 0 <= i < |xs| ==> rel(xs[i], ys[i])
    ensures forall i :: 0 <= i < |xs| + 1 ==> rel(([x] + xs)[i], ([y] + ys)[i])
  {
    forall i | 0 <= i < |xs| + 1 ensures rel(([x] + xs)[i], ([y] + ys)[i]) {
      if i > 0 {
        assert ([x] + xs)[i] == xs[i - 1] && ([y] + ys)[i] == ys[i - 1];
      }
    }
  }

  lemma StoredCons(f: StoredFile, p: Part, files: seq<StoredFile>, named: seq<Part>)
    requires StoredFrom(f, p)
    requires |files| == |named| && forall i :: 0 <= i < |files| ==> StoredFrom(files[i], named[i])
    ensures forall i :: 0 <= i < |files| + 1 ==> StoredFrom(([f] + files)[i], ([p] + named)[i])
  {
    PairwiseCons(f, p, files, named, (g: StoredFile, q: Part) => StoredFrom(g, q));
  }

  lemma PathsCons(f: StoredFile, files: seq<StoredFile>, disk: set<string>)
    ensures disk + {f.path} + Paths(files) == disk + Paths([f] + files)
  {
    assert ([f] + files)[1..] == files;
  }

  /** The route's `upload.array('media', 20)`: at most twenty named parts, all
      in the `media` field, admitted by the filter and within the size cap, are
      stored one file each; anything else aborts with the error of the first
      offending part. */
  function ReceiveMedia(parts: seq<Part>, nowMs: nat, rands: seq<nat>, disk: set<string>): (u: Upload)
    requires |rands| == |parts|
    ensures u.Received? <==>
              |Named(parts)| <= 20 && forall i :: 0 <= i < |Named(parts)| ==> Admissible(Named(parts)[i], "media")
    ensures u.Received? ==>
              && |u.files| == |Named(parts)| <= |parts|
              && (forall i :: 0 <= i < |u.files| ==> StoredFrom(u.files[i], Named(parts)[i]))
              && u.disk == disk + Paths(u.files)
    ensures u.Aborted? ==> u.err in UploadErrors
    ensures u.Aborted? ==>
              exists i :: AbortsAt(Named(parts), "media", 20, i, u.err)
  {
    ReceiveAbortsAtFirstOffender(parts, "media", 20, nowMs, rands, disk);
    Receive(parts, "media", 20, nowMs, rands, disk)
  }

  /** A file over the size cap, or a 21st file, aborts the whole upload and
      nothing is stored. */
  lemma {:induction false} OverLimitAborts(parts: seq<Part>, nowMs: nat, rands: seq<nat>, disk: set<string>)
    requires |rands| == |parts|
    requires |Named(parts)| > 20 || exists i :: 0 <= i < |Named(parts)| && Named(parts)[i].size > MaxFileSize
    ensures ReceiveMedia(parts, nowMs, rands, disk).Aborted?
  {
    if |Named(parts)| <= 20 {
      var i :| 0 <= i < |Named(parts)| && Named(parts)[i].size > MaxFileSize;
      assert !Admissible(Named(parts)[i], "media");
    }
  }

  /** `t` cannot occur in `m` when no position of `m` matches both the first
      character of `t` and its character at offset `j`. */
  lemma NoOccurrenceByChars(m: string, t: string, j: nat)
    requires 0 < j < |t|
    requires forall i :: 0 <= i < |m| - j ==> !(m[i] == t[0] && m[i + j] == t[j])
    ensures !Contains(m, t)
  {
    forall i | 0 <= i <= |m| - |t| ensures !OccursAt(m, t, i) {
      var w := m[i..i + |t|];
      assert w[0] == m[i] && w[j] == m[i + j];
    }
  }

  /** The filter's message does not carry the marker the error handler looks
      for: "Only images, videos" has a comma where the marker has a space. */
  lemma FilterMessageLacksMarker()
    ensures !Contains(FilterMessage, FileTypeMarker)
  {
    var m := FilterMessage;
    var t := FileTypeMarker;
    var a := "Only images,";
    var b := " videos and" + " PDFs are" + " allowed" + " (jpg, png," + " mp4, pdf," + " etc.)";
    assert m == a + b;
    assert t[0] == 'O' && t[11] == ' ';
    assert m[11] == a[11] == ',';
    assert 'O' !in a[1..];
    assert 'O' !in b;
    forall i | 0 < i < |m| ensures m[i] != 'O' {
      if i < |a| { assert m[i] == a[1..][i - 1]; } else { assert m[i] == b[i - |a|]; }
    }
    NoOccurrenceByChars(m, t, 11);
  }

  /** "File too large" has no capital O, so neither marker occurs in it. */
  lemma SizeMessageLacksMarkers()
    ensures !Contains("File too large", FileTypeMarker)
    ensures !Contains("File too large", IntendedFileTypeMarker)
  {
    var big := "File too large";
    assert forall i :: 0 <= i < |big| ==> big[i] != 'O';
    NoOccurrenceByChars(big, FileTypeMarker, 1);
    NoOccurrenceByChars(big, IntendedFileTypeMarker, 1);
  }

  /** How the handler as written answers each of the three upload errors. */
  lemma AsWrittenAnswers(err: Failure)
    requires err in UploadErrors
    ensures var resp := HandleErrorAsWritten(err);
            && resp.status == (if err.code == Some(UnexpectedFileCode) then 400 else 500)
            && resp.body.error != Some("INVALID_FILE_TYPE")
  {
    if err.code.None? {
      assert err == Failure(None, FilterMessage, None);
      FilterMessageLacksMarker();
    } else if err.code != Some(UnexpectedFileCode) {
      assert err == Failure(Some("LIMIT_FILE_SIZE"), "File too large", None);
      SizeMessageLacksMarkers();
    }
  }

  /** As written, every upload error reaches the global handler, which
      answers 400 only for an unexpected field or count; a refused file type
      and an oversized file both become 500, and INVALID_FILE_TYPE is never
      sent. */
  lemma UploadErrorStatus(parts: seq<Part>, field: string, left: nat, nowMs: nat, rands: seq<nat>, disk: set<string>)
    requires |rands| == |parts|
    requires Receive(parts, field, left, nowMs, rands, disk).Aborted?
    ensures var err := Receive(parts, field, left, nowMs, rands, disk).err;
            var resp := HandleErrorAsWritten(err);
            && resp.status == (if err.code == Some(UnexpectedFileCode) then 400 else 500)
            && resp.body.error != Some("INVALID_FILE_TYPE")
    ensures var resp := HandleErrorAsWritten(Receive(parts, field, left, nowMs, rands, disk).err);
            exists i :: && FirstOffender(Named(parts), field, left, i)
                        && (resp.status == 400 <==> Unexpected(Named(parts)[i], field, left - i))
                        && (RefusedType(Named(parts)[i], field, left - i) ==> resp.status == 500)
  {
    var err := Receive(parts, field, left, nowMs, rands, disk).err;
    ReceiveAbortsAtFirstOffender(parts, field, left, nowMs, rands, disk);
    var i :| AbortsAt(Named(parts), field, left, i, err);
    AsWrittenAnswers(err);
  }

  /** The filter's refusal opens with the intended marker. */
  lemma FilterMessageCarriesIntendedMarker()
    ensures Contains(FilterMessage, IntendedFileTypeMarker)
  {
    assert FilterMessage[..|IntendedFileTypeMarker|] == IntendedFileTypeMarker;
    assert OccursAt(FilterMessage, IntendedFileTypeMarker, 0);
  }

  /** How the corrected handler answers each of the three upload errors. */
  lemma IntendedAnswers(err: Failure)
    requires err in UploadErrors
    ensures var resp := HandleError(err);
            && (resp.status == 400 <==> err.code != Some("LIMIT_FILE_SIZE"))
            && (resp.status != 400 ==> resp.status == 500)
            && (resp.body.error == Some("INVALID_FILE_TYPE") <==> err.code.None?)
            && (err.code.None? ==> resp.body.message == FilterMessage)
  {
    if err.code.None? {
      assert err == Failure(None, FilterMessage, None);
      FilterMessageCarriesIntendedMarker();
    } else if err.code != Some(UnexpectedFileCode) {
      assert err == Failure(Some("LIMIT_FILE_SIZE"), "File too large", None);
      SizeMessageLacksMarkers();
    }
  }

  /** With the intended marker a refused file type is answered 400 with
      INVALID_FILE_TYPE and the filter's own message, as an unexpected field
      is answered 400; only an oversized file still becomes 500. */
  lemma RefusedTypeIsBadRequest(parts: seq<Part>, field: string, left: nat, nowMs: nat, rands: seq<nat>, disk: set<string>)
    requires |rands| == |parts|
    requires Receive(parts, field, left, nowMs, rands, disk).Aborted?
    ensures var err := Receive(parts, field, left, nowMs, rands, disk).err;
            var resp := HandleError(err);
            && (resp.status == 400 <==> err.code != Some("LIMIT_FILE_SIZE"))
            && (resp.status != 400 ==> resp.status == 500)
            && (resp.body.error == Some("INVALID_FILE_TYPE") <==> err.code.None?)
            && (err.code.None? ==> resp.body.message == FilterMessage)
    ensures var resp := HandleError(Receive(parts, field, left, nowMs, rands, disk).err);
            exists i :: && FirstOffender(Named(parts), field, left, i)
                        && (resp.body.error == Some("INVALID_FILE_TYPE") <==> RefusedType(Named(parts)[i], field, left - i))
                        && (RefusedType(Named(parts)[i], field, left - i) ==> resp.status == 400 && resp.body.message == FilterMessage)
                        && (resp.status == 500 <==> Named(parts)[i].size > MaxFileSize &&
                                                    !Unexpected(Named(parts)[i], field, left - i) &&
                                                    FileFilter(Named(parts)[i].mimetype, Named(parts)[i].originalname))
  {
    var err := Receive(parts, field, left, nowMs, rands, disk).err;
    ReceiveAbortsAtFirstOffender(parts, field, left, nowMs, rands, disk);
    var i :| AbortsAt(Named(parts), field, left, i, err);
    IntendedAnswers(err);
  }
}
