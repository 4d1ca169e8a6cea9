/** The global Express error handler: the last stop of every error passed to
    `next(err)` — in this application, the errors raised by the upload
    middleware and by body parsing. */
module ErrorHandler {
  import opened Common
  import opened Text
  import opened Http

  /** The fields of a thrown error the handler reads: `err.code`,
      `err.message` ("" when absent) and `err.status`. */
  datatype Failure = Failure(code: Option<string>, message: string, status: Option<int>)

  const UnexpectedFileCode: string := "LIMIT_UNEXPECTED_FILE"
  const UnexpectedFileMessage: string :=
    "Invalid field name in upload. Please use the \"image\" field for your file."

  /** The message the handler looks for, as written. */
  const FileTypeMarker: string := "Only images and videos"

  /** The message the handler is meant to look for: the opening words of the
      upload filter's refusal, which no longer reads "Only images and videos". */
  const IntendedFileTypeMarker: string := "Only images"

  /** The status and body the handler sends for `err`, when it looks for
      `marker` in the message. The error-code test comes first; then the
      message test; everything else answers with the error's own status, or
      500 when it has none (or 0). Outside development mode the `error` field
      is the empty object. */
  function HandleErrorWith(marker: string, err: Failure): (resp: Response)
    ensures err.code == Some(UnexpectedFileCode) ==>
              resp == Response(400, ErrorReport(UnexpectedFileMessage, Some(UnexpectedFileCode)))
    ensures err.code != Some(UnexpectedFileCode) && err.message != "" && Contains(err.message, marker) ==>
              resp == Response(400, ErrorReport(err.message, Some("INVALID_FILE_TYPE")))
    ensures err.code != Some(UnexpectedFileCode) && (err.message == "" || !Contains(err.message, marker)) ==>
              && resp.body.ErrorReport? && resp.body.error.None?
              && (err.message != "" ==> resp.body.message == err.message)
              && (err.message == "" ==> resp.body.message == "Internal Server Error")
              && (err.status.None? || err.status == Some(0) ==> resp.status == 500)
              && (err.status.Some? && err.status.value != 0 ==> resp.status == err.status.value)
  {
    if err.code == Some(UnexpectedFileCode) then
      Response(400, ErrorReport(UnexpectedFileMessage, Some(UnexpectedFileCode)))
    else if err.message != "" && Contains(err.message, marker) then
      Response(400, ErrorReport(err.message, Some("INVALID_FILE_TYPE")))
    else
      var status := if err.status.None? || err.status == Some(0) then 500 else err.status.value;
      Response(status, ErrorReport(if err.message != "" then err.message else "Internal Server Error", None))
  }

  /** The handler as written: 400 for the unexpected-file code, for a
      message carrying "Only images and videos", and for an error whose own
      status is 400; only such a message is marked INVALID_FILE_TYPE. */
  function HandleErrorAsWritten(err: Failure): (resp: Response)
    ensures resp.status == 400 <==>
              err.code == Some(UnexpectedFileCode) || Contains(err.message, FileTypeMarker) || err.status == Some(400)
    ensures resp.body.ErrorReport?
    ensures resp.body.error == Some("INVALID_FILE_TYPE") <==>
              err.code != Some(UnexpectedFileCode) && Contains(err.message, FileTypeMarker)
  {
    BadRequestExactly(FileTypeMarker, err);
    HandleErrorWith(FileTypeMarker, err)
  }

  /** The handler with the marker it is meant to test, "Only images": the
      same answers, except that the upload filter's refusal is now a 400
      marked INVALID_FILE_TYPE. */
  function HandleError(err: Failure): (resp: Response)
    ensures resp.status == 400 <==>
              err.code == Some(UnexpectedFileCode) || Contains(err.message, IntendedFileTypeMarker) || err.status == Some(400)
    ensures resp.body.ErrorReport?
    ensures resp.body.error == Some("INVALID_FILE_TYPE") <==>
              err.code != Some(UnexpectedFileCode) && Contains(err.message, IntendedFileTypeMarker)
  {
    BadRequestExactly(IntendedFileTypeMarker, err);
    HandleErrorWith(IntendedFileTypeMarker, err)
  }

  /** The handler answers 400 exactly for the unexpected-file code and for
      messages carrying the file-type marker; every other error keeps its own
      status or becomes 500. */
  lemma {:induction false} BadRequestExactly(marker: string, err: Failure)
    requires marker != ""
    ensures HandleErrorWith(marker, err).status == 400 <==>
              err.code == Some(UnexpectedFileCode) || Contains(err.message, marker) || err.status == Some(400)
  {
  }

  /** A message carrying the marker as written also carries the intended one,
      its first eleven characters. */
  lemma WrittenMarkerCarriesIntended(m: string)
    ensures Contains(m, FileTypeMarker) ==> Contains(m, IntendedFileTypeMarker)
  {
    if Contains(m, FileTypeMarker) {
      var i :| 0 <= i <= |m| - |FileTypeMarker| && OccursAt(m, FileTypeMarker, i);
      assert FileTypeMarker[..|IntendedFileTypeMarker|] == IntendedFileTypeMarker;
      assert m[i..i + |IntendedFileTypeMarker|] == m[i..i + |FileTypeMarker|][..|IntendedFileTypeMarker|];
      assert OccursAt(m, IntendedFileTypeMarker, i);
    }
  }

  /** The two handlers answer alike except for a message that opens the
      intended way but not the way the handler as written expects. */
  lemma HandlersDifferOnlyOnShortMarker(err: Failure)
    ensures HandleError(err) != HandleErrorAsWritten(err) <==>
              && err.code != Some(UnexpectedFileCode)
              && Contains(err.message, IntendedFileTypeMarker) && !Contains(err.message, FileTypeMarker)
  {
    WrittenMarkerCarriesIntended(err.message);
  }
}
