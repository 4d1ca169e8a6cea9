# Bauhaus-Admin in Dafny

Bauhaus-Admin is the back office of an interior-design studio. It has two parts:

- An Express/Prisma backend. An administrator manages clients, projects and
  progress entries. Each entry is a photo, a video or a PDF. A client logs in
  with a username and a four-digit PIN and sees only its own projects.
- A Next.js frontend, with an administrator area (dashboard, clients,
  projects, settings) and a client area (one project page).

This project models the core of both parts as pure functions over immutable
data and proves what their handlers promise.

- **Store.** The database is a record of four tables (`Store.State`), each a
  sequence in table order. `Store.Valid` states the schema's constraints:
  unique ids, unique usernames and admin emails, foreign keys. It also states
  the application's own rule that no PIN opens two client accounts. The
  `onDelete: Cascade` deletions are `Store.DeleteClientCascade` and
  `Store.DeleteProjectCascade`.
- **Files on disk.** The stored upload paths are a set in the same state.
- **Tokens.** Issued tokens are a registry inside the state. Each token maps
  to its claims and its expiry in whole seconds.
- **Handlers.** Every backend handler takes a state and its inputs. It returns
  `Http.Step`, which holds the new state and the response (status and body).
- **Request pipeline.** `Routes.Serve` runs the whole pipeline: route
  resolution, the chain of `authenticate` gates, the multer upload middleware
  for entry writes, the handler, and the global error handler.
- **Outside inputs.** The clock, `Math.random`, database-generated ids and
  which unlinks the filesystem refuses are all parameters (`Routes.Env`).
- **Frontend.** Each page's list logic is a function of the data the page
  fetched: filters, figures, list updates after a write, and the form
  checks. The auth provider is a transition function over its React state,
  its `localStorage` and the routes it pushed.
- **Modelling conventions.**
  - A request-body field that the handler only tests for truthiness reads as
    `""` when absent. A field that the handler passes on untested is an
    `Option`. Its absence (`undefined`) is answered 500 wherever the source's
    lookup, comparison or hashing throws on it.
  - Case mapping is ASCII only.
  - A string is a sequence of characters, and `|s|` counts characters.
    JavaScript's `length` counts UTF-16 code units instead, so the two differ
    for characters outside the Basic Multilingual Plane. The four-digit
    PIN check agrees with the source only for text within that plane.
  - bcrypt is an ideal hash (`Secrets`).
  - jsonwebtoken is a registry of signed tokens (`Tokens`).

## Model

| member | source | states |
|---|---|---|
| Secrets.MatchesOwnDigestOnly | Admin/interior-design-backend/src/utils/hash.ts:5-11 | A digest made from a secret is matched by that secret and by no other string. |
| Tokens.Sign | Admin/interior-design-backend/src/utils/token.ts:5-8 | Signing registers the token with its claims and an expiry of issue second + 86400 (`'1d'`). Every other token keeps its entry. |
| Tokens.Verify | Admin/interior-design-backend/src/utils/token.ts:10-16 | A token decodes exactly when it was issued and its expiry second has not been reached. It then decodes to the claims it was issued with. |
| Tokens.SignThenVerify | Admin/interior-design-backend/src/utils/token.ts:5-16 | A fresh token decodes to its claims throughout the day after issue. It is refused from one day after issue on. |
| Tokens.SignKeepsOthers | Admin/interior-design-backend/src/utils/token.ts:5-8 | Issuing one token never changes what any other token decodes to. |
| Sorting.SortDesc | Admin/interior-design-backend/src/modules/project/project.controller.ts:57 | `orderBy: { createdAt: 'desc' }` gives the same multiset of rows, newest first. |
| Sorting.SortDescSameElements | Admin/interior-design-backend/src/modules/admin/admin.controller.ts:10 | The ordered list holds exactly the rows it was given. |
| Sorting.SortDescStable | Admin/interior-design-backend/src/modules/projectEntry/projectEntry.controller.ts:93 | Rows with equal `createdAt` keep their table order. This pins down one admissible order among ties. |
| Views.FormatEntry | Admin/interior-design-backend/src/modules/projectEntry/projectEntry.controller.ts:10-17 | The row is kept. The category defaults to TIMELINE. `media` holds one `{url, type}` item exactly when the row has a file, and none otherwise. |
| Views.FormatEntries | Admin/interior-design-backend/src/modules/projectEntry/projectEntry.controller.ts:96 | Every entry is formatted, in order. |
| Views.FormatProjectEntries | Admin/interior-design-backend/src/modules/project/project.controller.ts:7-20 | The project and its client name are kept. Entries that were not loaded stay absent. Loaded entries keep their number, their order and their rows. |
| Views.FormatEntryKeepsFile | Admin/interior-design-backend/src/modules/projectEntry/projectEntry.controller.ts:10-17 | The file URL can be read back both from the row and from the media item built from it. |
| AuthMiddleware.BearerToken | Admin/interior-design-backend/src/middleware/auth.ts:20 | `split(' ')[1]` never contains a space. |
| AuthMiddleware.BearerTokenIsSecondWord | Admin/interior-design-backend/src/middleware/auth.ts:20 | The token is the text after "Bearer " up to the next space. |
| AuthMiddleware.Authenticate | Admin/interior-design-backend/src/middleware/auth.ts:13-34 | The outcome is one of four, in this order: 401 without a "Bearer " header; 401 when the token does not verify; 403 when a role is required and differs; otherwise pass with the decoded claims as `req.user`. |
| AuthMiddleware.RoleCheckComesLast | Admin/interior-design-backend/src/middleware/auth.ts:22-32 | A verified token always passes a gate that requires no role. It gets 403 from a gate that requires another role. |
| AuthMiddleware.Chain | Admin/interior-design-backend/src/modules/admin/admin.routes.ts:160 | A chain of gates passes exactly when every gate passes, with the claims of the last gate. Otherwise its answer is the rejection of the first gate that rejects, all gates before it having passed. |
| AuthMiddleware.RejectShifts | Admin/interior-design-backend/src/modules/admin/admin.routes.ts:160 | After a passing first gate, the first rejecting gate of the rest is the first rejecting gate of the whole chain. |
| AuthMiddleware.RepeatedGateSameOutcome | Admin/interior-design-backend/src/modules/admin/admin.routes.ts:160 | Applying the same gate twice decides as applying it once. |
| AdminController.GetAllClients | Admin/interior-design-backend/src/modules/admin/admin.controller.ts:7-16 | The store is unchanged. The answer is 200 with every client row, newest first. |
| AdminController.CreateClient | Admin/interior-design-backend/src/modules/admin/admin.controller.ts:18-51 | A missing username gets 500. A taken username gets 400. A missing PIN then gets 500, and a PIN that opens another account gets 400. The answer is 201 exactly when both fields are present and neither refusal applies. Only then is the row added, with a hashed PIN. The store stays valid. |
| AdminController.CreateClientKeepsPinsUnique | Admin/interior-design-backend/src/modules/admin/admin.controller.ts:28-37 | After creation no PIN opens two accounts. A refused PIN is one that already opened an account. |
| AdminController.ResetClientPin | Admin/interior-design-backend/src/modules/admin/admin.controller.ts:53-81 | A missing new PIN gets 500. A PIN that opens another client's account gets 400. A missing client makes the update throw (500). The answer is 200 exactly otherwise, and then only that client's digest changes. The store stays valid. |
| AdminController.ResetToOwnPin | Admin/interior-design-backend/src/modules/admin/admin.controller.ts:59-69 | Resetting a client to the PIN it already has is accepted, because the scan skips the client itself. |
| AdminController.SetBlocked | Admin/interior-design-backend/src/modules/admin/admin.controller.ts:83-111 | A missing client gets 500. Otherwise only that client's `isBlocked` is set, and the store stays valid. |
| AdminController.BlockClient | Admin/interior-design-backend/src/modules/admin/admin.controller.ts:83-96 | A missing client gets 500 and nothing changes. Otherwise the answer is 200 "Client blocked successfully". That client is blocked, no other field or row changes, and the store stays valid. |
| AdminController.UnblockClient | Admin/interior-design-backend/src/modules/admin/admin.controller.ts:98-111 | A missing client gets 500 and nothing changes. Otherwise the answer is 200 "Client unblocked successfully". That client is unblocked, no other field or row changes, and the store stays valid. |
| AdminController.BlockIdempotent | Admin/interior-design-backend/src/modules/admin/admin.controller.ts:83-111 | Blocking twice equals blocking once, and the same holds for unblocking. No other client changes. |
| AdminController.UnlinkAll | Admin/interior-design-backend/src/modules/admin/admin.controller.ts:140-148 | Every collected path is attempted, in order. The disk loses exactly the paths whose unlink does not fail. |
| AdminController.ClientFileUrls | Admin/interior-design-backend/src/modules/admin/admin.controller.ts:118-125 | Returns the file of every entry of every project of the client, and nothing else. |
| AdminController.DeleteClient | Admin/interior-design-backend/src/modules/admin/admin.controller.ts:113-154 | A missing client gets 500 and nothing changes. Otherwise the answer is 200: the cascade removes the client's rows, every collected file is attempted, and only the failed unlinks stay on disk. |
| AdminController.DeleteClientRemovesEverything | Admin/interior-design-backend/src/modules/admin/admin.controller.ts:113-154 | Afterwards nothing of the client is left: no row, no project, no entry, and none of its files the filesystem did not refuse. |
| AdminController.UpdateAdminProfile | Admin/interior-design-backend/src/modules/admin/admin.controller.ts:158-178 | The update succeeds exactly when the admin the token names exists and no other admin holds a given email. Every failure is the same 500. On success only the non-empty fields change, on that admin. The store stays valid. |
| AuthController.AdminLogin | Admin/interior-design-backend/src/modules/auth/auth.controller.ts:7-26 | A missing email gets 500. An unknown email gets 401. A missing password then gets 500. Success means both fields are present, the email is known and the password matches, and nothing else succeeds. The answer is then a fresh ADMIN token carrying the admin's claims. Every other answer is the same 401, or 500. |
| AuthController.UnifiedLogin | Admin/interior-design-backend/src/modules/auth/auth.controller.ts:28-59 | A missing identifier gets 500. The admin with that email is tried first, and a missing secret on that path gets 500. Then the client with that username: a blocked client gets 403 before the secret is looked at, and a missing secret gets 500. The answer is 401 exactly when no admin or client accepts and nothing throws. |
| AuthController.ClientLogin | Admin/interior-design-backend/src/modules/auth/auth.controller.ts:61-84 | The checks run in this order: a missing username gets 500, an unknown username 401, a blocked account 403, a missing PIN 500, and a wrong PIN 401. Only a matching PIN on an unblocked account yields a CLIENT token. |
| AuthController.BlockedClientNeverLogsIn | Admin/interior-design-backend/src/modules/auth/auth.controller.ts:28-84 | A blocked account gets 403 from the client login whatever PIN is offered, or if none is. The unified login answers it 403 unless an administrator has that email and the secret logs that administrator in, or no secret is given for that administrator. |
| AuthController.RequestPasswordReset | Admin/interior-design-backend/src/modules/auth/auth.controller.ts:87-120 | A missing email gets 500. An unknown email changes nothing. A known one stores the token, with an expiry one hour ahead, on that admin only. |
| AuthController.ResetRequestRevealsAccount | Admin/interior-design-backend/src/modules/auth/auth.controller.ts:95-116 | The answers for a known and an unknown email differ. |
| AuthController.ResetPassword | Admin/interior-design-backend/src/modules/auth/auth.controller.ts:123-155 | Without an admin holding the token with an unexpired link, the answer is 400 and nothing changes. With one but without a new password, the hashing throws (500) and nothing changes. The answer is 200 exactly otherwise: the first such admin gets the new password, and its link is cleared. |
| AuthController.ResetTokenSingleUse | Admin/interior-design-backend/src/modules/auth/auth.controller.ts:141-148 | Replaying a link after a successful reset is refused with 400. |
| AuthController.RequestThenReset | Admin/interior-design-backend/src/modules/auth/auth.controller.ts:101-148 | A link requested at t0 resets the password exactly while the clock is before t0 + 1 h. |
| AuthController.ResetWithoutTokenMatchesAnyPendingLink | Admin/interior-design-backend/src/modules/auth/auth.controller.ts:127-132 | A body without a token resets an admin that has any pending link. |
| Store.ParseCategory | Admin/interior-design-backend/src/modules/projectEntry/projectEntry.controller.ts:6 | A string names a category exactly when it is in `VALID_CATEGORIES`, and then it reads back as that name. |
| Store.DeleteClientCascadeValid | Admin/interior-design-backend/src/modules/admin/admin.controller.ts:127-130 | The client cascade keeps the store valid and leaves no row, project or entry of the client. |
| Store.DeleteProjectCascadeValid | Admin/interior-design-backend/src/modules/project/project.controller.ts:125-134 | The project cascade keeps the store valid and leaves no entry of the project. |
| EntryController.Classify | Admin/interior-design-backend/src/modules/projectEntry/projectEntry.controller.ts:42-47 | A `video/…` mimetype is VIDEO. Exactly `application/pdf` is PDF. Everything else is IMAGE. |
| EntryController.FileUrl | Admin/interior-design-backend/src/modules/projectEntry/projectEntry.controller.ts:52 | Every backslash becomes a slash and nothing else moves. |
| EntryController.RequestedCategory | Admin/interior-design-backend/src/modules/projectEntry/projectEntry.controller.ts:26 | A listed category is taken as given. Anything else is TIMELINE. |
| EntryController.NewEntries | Admin/interior-design-backend/src/modules/projectEntry/projectEntry.controller.ts:41-56 | One entry per uploaded file, in upload order. |
| EntryController.CreateProjectEntry | Admin/interior-design-backend/src/modules/projectEntry/projectEntry.controller.ts:21-73 | No files gets 400 before the project is looked up. A missing project then gets 404. The answer is 201 exactly otherwise, with one formatted entry per file. The disk is untouched and the store stays valid. |
| EntryController.CreateThenList | Admin/interior-design-backend/src/modules/projectEntry/projectEntry.controller.ts:21-100 | After a successful upload the project's entries are the old ones followed by the new ones. |
| EntryController.GetProjectEntries | Admin/interior-design-backend/src/modules/projectEntry/projectEntry.controller.ts:76-100 | A missing project gets 404 before the ownership test. A CLIENT that does not own the project gets 403. Otherwise the project's entries come back newest first, each formatted. |
| EntryController.ChosenFile | Admin/interior-design-backend/src/modules/projectEntry/projectEntry.controller.ts:108 | Returns `req.file` if present, else the first of `req.files`, else nothing. |
| EntryController.Edited | Admin/interior-design-backend/src/modules/projectEntry/projectEntry.controller.ts:116-130 | A non-empty description, a listed category and a file each replace their fields. Everything else of the row is kept. |
| EntryController.UpdateProjectEntry | Admin/interior-design-backend/src/modules/projectEntry/projectEntry.controller.ts:103-142 | A missing entry gets 404. Otherwise only that row changes, as `Edited` says. The store stays valid. |
| EntryController.UpdateIdempotent | Admin/interior-design-backend/src/modules/projectEntry/projectEntry.controller.ts:103-142 | Sending the same edit twice leaves the store as sending it once. |
| EntryController.EmptyEditChangesNothing | Admin/interior-design-backend/src/modules/projectEntry/projectEntry.controller.ts:116-135 | An edit with no description, no valid category and no file changes nothing. |
| EntryController.DeleteProjectEntry | Admin/interior-design-backend/src/modules/projectEntry/projectEntry.controller.ts:145-160 | A missing entry gets 404. Otherwise exactly that row goes and every other row stays. Nothing else of the store changes, so the file stays on disk. |
| EntryController.CreateThenDeleteEntry | Admin/interior-design-backend/src/modules/projectEntry/projectEntry.controller.ts:145-160 | Deleting the entry a one-file upload created restores the entry table. |
| ErrorHandler.HandleErrorWith | Admin/interior-design-backend/src/index.ts:59-81 | `LIMIT_UNEXPECTED_FILE` gets 400 first. A message carrying the file-type marker gets 400 INVALID_FILE_TYPE next. Anything else answers with its own status, or 500. |
| ErrorHandler.HandleErrorAsWritten | Admin/interior-design-backend/src/index.ts:59-81 | As written, the answer is 400 exactly for `LIMIT_UNEXPECTED_FILE`, a message containing "Only images and videos", or an error carrying status 400. Only such a message is marked INVALID_FILE_TYPE. |
| ErrorHandler.HandleError | Admin/interior-design-backend/src/index.ts:59-81 | With the intended marker "Only images", the same holds with that marker in place of the written one. |
| ErrorHandler.WrittenMarkerCarriesIntended | Admin/interior-design-backend/src/index.ts:70 | A message containing the written marker also contains the intended one. |
| ErrorHandler.HandlersDifferOnlyOnShortMarker | Admin/interior-design-backend/src/index.ts:63-80 | The two handlers answer differently exactly for an error without the unexpected-file code whose message contains "Only images" but not "Only images and videos". |
| ErrorHandler.BadRequestExactly | Admin/interior-design-backend/src/index.ts:63-80 | The handler answers 400 exactly for the unexpected-file code, the marker, or an error that already carries status 400. |
| Upload.Extname | Admin/interior-design-backend/src/middleware/upload.ts:28 | Like Node's `path.extname`: empty, or one dot followed by neither a dot nor a slash. |
| Upload.TestedNeedsToken | Admin/interior-design-backend/src/middleware/upload.ts:26 | Every alternative of the regular expression is at least three characters long, so a shorter string never matches. |
| Upload.FileFilter | Admin/interior-design-backend/src/middleware/upload.ts:24-34 | An admitted file has an extension of at least three characters (a dot and two more) and a mimetype of at least three. So a name without an extension is refused whatever its mimetype. |
| Upload.StoredPath | Admin/interior-design-backend/src/middleware/upload.ts:5-15 | Every stored file lies under `uploads/projects/`. |
| Upload.StoredName | Admin/interior-design-backend/src/middleware/upload.ts:16-19 | The stored name `<time>-<random><ext>` keeps the extension of the uploaded name and contains no slash, so the file stays in the upload directory. |
| Upload.PdfAlternativeRedundant | Admin/interior-design-backend/src/middleware/upload.ts:27 | The extra `=== 'application/pdf'` test admits nothing the regular expression does not already admit. |
| Upload.QuickTimeHasNoToken | Admin/interior-design-backend/src/middleware/upload.ts:26 | `video/quicktime` contains none of the regular expression's alternatives. |
| Upload.QuickTimeRefused | Admin/interior-design-backend/src/middleware/upload.ts:26-33 | A `.mov` QuickTime video is refused although its extension passes. |
| Upload.FilterIgnoresPairing | Admin/interior-design-backend/src/middleware/upload.ts:27-30 | The mimetype and the extension are tested separately. The extension test ignores case. So `image/png` named `x.MP4` passes. |
| Upload.PartError | Admin/interior-design-backend/src/middleware/upload.ts:24-35 | The first offending part raises one of three errors. It gets `LIMIT_UNEXPECTED_FILE` exactly when it is in another field or over the count. It gets the filter's message, with no code, exactly when it passes that test and the filter refuses it. It gets `LIMIT_FILE_SIZE` exactly when it passes both and is over 50 MiB. |
| Upload.Receive | Admin/interior-design-backend/src/middleware/upload.ts:22-36 | An upload is received exactly when every named part is admissible. Each part is then stored in order under its generated name. Otherwise it aborts with the error `AbortOf` reports for the named parts, and that error is one of the three. |
| Upload.FirstFailure | Admin/interior-design-backend/src/middleware/upload.ts:22-36 | The search multer's checks amount to: it finds no position exactly when there are at most `limit` elements and all pass. Otherwise every element before the position it returns passes, and that element fails or is the one past the limit. |
| Upload.FirstOffenderUnique | Admin/interior-design-backend/src/middleware/upload.ts:22-36 | An upload has at most one first offending part. |
| Upload.AbortOfFindsFirstOffender | Admin/interior-design-backend/src/middleware/upload.ts:22-36 | The search reports no error exactly when at most `left` parts are named and each is admissible. Otherwise it reports one of the three errors, namely `PartError` of the first offending part. |
| Upload.AbortOfCons | Admin/interior-design-backend/src/middleware/upload.ts:22-36 | Parts are checked in order. A refused head gives its own error. After an admitted head the rest is checked with one fewer file allowed. |
| Upload.ReceiveAbortsAtFirstOffender | Admin/interior-design-backend/src/middleware/upload.ts:22-36 | An aborted upload carries the error of its first offending named part: all earlier parts were admitted within the count. |
| Upload.ReceiveMedia | Admin/interior-design-backend/src/modules/projectEntry/projectEntry.routes.ts:50 | `upload.array('media', 20)` receives exactly when at most twenty parts are named and each is admissible in the `media` field. It then stores one file per named part, in order, and adds exactly their paths to the disk. Otherwise it aborts with one of the three upload errors, the one raised by the first offending named part. |
| Upload.OverLimitAborts | Admin/interior-design-backend/src/modules/projectEntry/projectEntry.routes.ts:50 | A 21st file, or a file over 50 MiB, aborts the whole upload. |
| Upload.FilterMessageLacksMarker | Admin/interior-design-backend/src/middleware/upload.ts:33 | The filter's message does not contain "Only images and videos". |
| Upload.AsWrittenAnswers | Admin/interior-design-backend/src/index.ts:63-80 | Of the three upload errors, only the unexpected-file code gets 400 under the handler as written. A refused file type and an oversized file both get 500, and neither is marked INVALID_FILE_TYPE. |
| Upload.IntendedAnswers | Admin/interior-design-backend/src/index.ts:63-80 | Under the handler with the intended marker, every upload error but the oversized file gets 400, and that one gets 500. Exactly the refused file type is marked INVALID_FILE_TYPE and keeps the filter's message. |
| Upload.UploadErrorStatus | Admin/interior-design-backend/src/index.ts:70 | Under the handler as written, an aborted upload gets 400 exactly when its first offending part is in another field or over the count. A first offender that the filter refuses gets 500, not 400. INVALID_FILE_TYPE is never sent. |
| Upload.FilterMessageCarriesIntendedMarker | Admin/interior-design-backend/src/middleware/upload.ts:33 | The filter's message opens with "Only images". |
| Upload.RefusedTypeIsBadRequest | Admin/interior-design-backend/src/index.ts:70-75 | With the intended marker, an aborted upload is marked INVALID_FILE_TYPE exactly when the filter refuses its first offending part. It then gets 400 with the filter's message. It gets 500 exactly when that part passes the field, count and type tests and is over 50 MiB. |
| ProjectController.ClientUsername | Admin/interior-design-backend/src/modules/project/project.controller.ts:56 | The included username is present exactly when the client exists, and it is that client's. |
| ProjectController.EntriesOfProject | Admin/interior-design-backend/src/modules/project/project.controller.ts:72 | Returns exactly the entries of the project. |
| ProjectController.Listing | Admin/interior-design-backend/src/modules/project/project.controller.ts:53-63 | Every project appears in order, with its client's name and without entries. |
| ProjectController.CreateProject | Admin/interior-design-backend/src/modules/project/project.controller.ts:23-50 | A missing title or client id gets 400 before the lookup. A missing client gets 404. The answer is 201 exactly otherwise, and only then is the project added. The store stays valid. |
| ProjectController.GetAllProjects | Admin/interior-design-backend/src/modules/project/project.controller.ts:53-63 | Returns every project, newest first, each with its client's name. The store is unchanged. |
| ProjectController.AllProjectsNamed | Admin/interior-design-backend/src/modules/project/project.controller.ts:53-63 | In a valid store every listed project carries its client's name. |
| ProjectController.EntryListing | Admin/interior-design-backend/src/modules/project/project.controller.ts:66-79 | Every project appears in order with its formatted entries. |
| ProjectController.OwnProjects | Admin/interior-design-backend/src/modules/project/project.controller.ts:70-71 | Returns exactly the requester's projects, in table order. |
| ProjectController.GetMyProjects | Admin/interior-design-backend/src/modules/project/project.controller.ts:66-79 | Returns exactly the requester's projects, newest first, each with its entries. |
| ProjectController.MyProjectsShowAllEntries | Admin/interior-design-backend/src/modules/project/project.controller.ts:66-79 | Each listed project carries all of its entries and none of another project's. |
| ProjectController.GetProjectDetail | Admin/interior-design-backend/src/modules/project/project.controller.ts:82-106 | A missing project gets 404 before the ownership test. A CLIENT that does not own the project gets 403. Otherwise the project comes back with its client and entries. |
| ProjectController.DetailNeverForbidsAdminOrOwner | Admin/interior-design-backend/src/modules/project/project.controller.ts:98-100 | An admin, or the owning client, always gets an existing project. |
| ProjectController.UpdateProjectStatus | Admin/interior-design-backend/src/modules/project/project.controller.ts:109-122 | A value outside the enum gets 500, and so does a missing project. Otherwise only that project's status and `updatedAt` change. |
| ProjectController.AnyStatusReachable | Admin/interior-design-backend/src/modules/project/project.controller.ts:109-122 | Any status can be set from any status in one request. |
| ProjectController.LastStatusWins | Admin/interior-design-backend/src/modules/project/project.controller.ts:109-122 | Two updates in a row leave the store as the second alone would. |
| ProjectController.DeleteProject | Admin/interior-design-backend/src/modules/project/project.controller.ts:125-134 | A missing project gets 500. Otherwise the project and its entries go, and everything else stays. Files stay on disk. |
| ProjectController.CreateThenDeleteProject | Admin/interior-design-backend/src/modules/project/project.controller.ts:125-134 | Deleting a project just created restores the store exactly. |
| Routes.Resolve | Admin/interior-design-backend/src/index.ts:44-47 | `/auth` goes to the auth router. Every `/admin` path stays with the admin router, matched or not. The project router comes before the entry router. |
| Routes.Gates | Admin/interior-design-backend/src/modules/projectEntry/projectEntry.routes.ts:50-116 | Every handler has at least one `authenticate` gate, and so does an unknown `/admin` path. Only paths no router matches and the auth router's paths have none. |
| Routes.WritersNeedAdmin | Admin/interior-design-backend/src/modules/project/project.routes.ts:46-144 | Every handler that writes sits behind an ADMIN gate. Readers have a single gate. |
| Routes.UploadThen | Admin/interior-design-backend/src/modules/projectEntry/projectEntry.routes.ts:50-105 | A refused upload skips the handler and leaves the store as it was. It is answered by the error handler with the given file-type marker. A received upload leaves exactly the stored files added to the disk. The store stays valid. |
| Routes.HandleAdmin | Admin/interior-design-backend/src/modules/admin/admin.routes.ts:21-160 | The read-only admin route leaves the store unchanged. Every admin handler keeps the store valid. A missing username, PIN or new PIN reaches its handler as absent. |
| Routes.HandleProjects | Admin/interior-design-backend/src/modules/project/project.routes.ts:46-144 | The read-only project and entry routes leave the store unchanged. Every handler keeps the store valid. |
| Routes.ServeWith | Admin/interior-design-backend/src/index.ts:44-81 | The same four promises as `Routes.Serve`, for an error handler testing for any marker. |
| Routes.Serve | Admin/interior-design-backend/src/index.ts:44-81 | The application as written, with its error handler testing for "Only images and videos". `/auth` paths are not served here. An unknown route gets 404. When a gate rejects, its answer is sent and the store is unchanged. A served request keeps the store valid. |
| Routes.OnlyAdminsWrite | Admin/interior-design-backend/src/modules/admin/admin.routes.ts:7 | Without a live ADMIN token, neither the store nor the disk changes. |
| Routes.ClientBarredFromAdmin | Admin/interior-design-backend/src/modules/admin/admin.routes.ts:7 | A client's token gets 403 on every `/admin` path, known or not. |
| Routes.AdminBarredFromMyProjects | Admin/interior-design-backend/src/modules/project/project.routes.ts:124 | An administrator's token gets 403 on `/my-projects`. |
| Routes.UnknownAdminPath | Admin/interior-design-backend/src/modules/admin/admin.routes.ts:7 | An unknown `/admin` path answers 401 without a token, and 404 only with an ADMIN token. |
| Routes.StatusRouteShadowsEntryEdit | Admin/interior-design-backend/src/modules/project/project.routes.ts:90 | `PATCH /projects/entries/status` reaches the status handler, not the entry editor. |
| Routes.RoutesReachTheirHandlers | Admin/interior-design-backend/src/modules/project/project.routes.ts:46-144 | Every declared route reaches its own handler, except an entry whose id is `status`. |
| Routes.ProfileGatedOnce | Admin/interior-design-backend/src/modules/admin/admin.routes.ts:160 | The doubled ADMIN gate on `/profile` decides as one gate. |
| Routes.RefusedUploadChangesNothing | Admin/interior-design-backend/src/modules/projectEntry/projectEntry.routes.ts:50-105 | As written, a refused upload by an admin leaves the store and the disk as they were. It gets 400 exactly when the first offending named part is in another field or is the 21st. A first offender the filter refuses, or an oversized one, gets 500, and INVALID_FILE_TYPE is never sent. |
| Routes.RefusedUploadAnsweredAsIntended | Admin/interior-design-backend/src/index.ts:63-75 | With the intended marker, the same refused upload changes nothing. It is marked INVALID_FILE_TYPE, with 400 and the filter's message, exactly when the filter refuses the first offending named part. It gets 500 exactly when that part is an oversized file that passes the other tests. |
| ApiConfig.MediaBaseUrl | adminui/src/config/api.ts:3 | Returns the configured base if set, else the built-in address. |
| ApiConfig.TokenKey | adminui/src/config/api.ts:8-9 | Pages under `/client` read `client_token`, every other page `admin_token`. |
| ApiConfig.StoredToken | adminui/src/config/api.ts:6-11 | Returns nothing during server rendering. Otherwise returns the stored value under the page's key, if there is one. |
| ApiConfig.AuthHeaders | adminui/src/config/api.ts:14-21 | Always sends the JSON content type. The bearer credential is added exactly when a non-empty token is stored. |
| ApiConfig.MultipartHeaders | adminui/src/config/api.ts:24-31 | Sends no content type. The bearer credential is sent exactly when a non-empty token is stored. |
| ApiConfig.HeaderReachesGate | adminui/src/config/api.ts:14-21 | The server's gate reads back exactly the token the page sent, for a token without spaces. |
| AuthContext.StorageKeys | adminui/src/contexts/AuthContext.tsx:23-28 | Each role has its own token key and user key, and the two differ. |
| AuthContext.KeysApart | adminui/src/contexts/AuthContext.tsx:23-28 | The two roles share no storage key. |
| AuthContext.PathRole | adminui/src/contexts/AuthContext.tsx:66 | ADMIN exactly for `/admin…` paths. |
| AuthContext.SelectRole | adminui/src/contexts/AuthContext.tsx:40-56 | The path decides first: `/admin` means ADMIN, `/client` means CLIENT. Failing that, a stored admin token means ADMIN, then a stored client token means CLIENT, otherwise no role. |
| AuthContext.Restore | adminui/src/contexts/AuthContext.tsx:58-84 | A token is restored only when both the token and the user entry under the role's keys are set, and the user entry is not `"undefined"`. An unreadable user entry is removed and nothing else is. |
| AuthContext.Redirects | adminui/src/contexts/AuthContext.tsx:86-96 | Only a protected page redirects: a path under `/admin` or `/client` other than its login page, and never while loading. A visitor without a token is always sent away from such a page. |
| AuthContext.Login | adminui/src/contexts/AuthContext.tsx:98-118 | An empty token changes nothing. Otherwise only the chosen role's two keys are written, the session takes the token and user, and that role's dashboard is pushed. |
| AuthContext.Logout | adminui/src/contexts/AuthContext.tsx:120-130 | Only the current role's two keys are removed. The session is cleared and `/` is pushed. |
| AuthContext.LogoutKeepsOtherRole | adminui/src/contexts/AuthContext.tsx:120-124 | Logging out of one role keeps the other role's stored session. |
| AuthContext.LoginThenRestore | adminui/src/contexts/AuthContext.tsx:58-118 | A reload after login restores the same token and user. |
| AuthContext.LoginOpensDashboard | adminui/src/contexts/AuthContext.tsx:86-96 | After login as a role, the guard does not send that role's dashboard away. |
| AuthContext.LogoutClosesProtectedPages | adminui/src/contexts/AuthContext.tsx:86-96 | After logout every protected page redirects to `/`. |
| AuthContext.LogoutThenRestore | adminui/src/contexts/AuthContext.tsx:58-84 | After logout, a reload on the same role's pages finds no session. |
| ClientDashboard.FullUrl | adminui/src/app/client/dashboard/page.tsx:64-67 | Empty stays empty. An `http…` URL stays as is. Anything else is joined to the media base. |
| ClientDashboard.FullUrlIdempotent | adminui/src/app/client/dashboard/page.tsx:64-67 | With an absolute base, applying it twice equals applying it once. |
| ClientDashboard.MediaUrl | adminui/src/app/client/dashboard/page.tsx:69 | Returns the first non-empty of url, path, file, fileUrl and link, in that order. It is empty only when all five are. |
| ClientDashboard.MediaType | adminui/src/app/client/dashboard/page.tsx:70 | The type upper-cased if set, else the fileType upper-cased if set, else IMAGE. The result has no lower-case letter. |
| ClientDashboard.EntryCategory | adminui/src/app/client/dashboard/page.tsx:72-74 | The entry's own category when set, and TIMELINE when it is empty. Never empty. |
| ClientDashboard.EntryMedia | adminui/src/app/client/dashboard/page.tsx:116-128 | A non-empty media list is kept as it is. Otherwise the entry's file becomes one item, typed by its fileType, else PDF for a `.pdf` name in any case, else IMAGE. No file gives no items. |
| ClientDashboard.MergeMedia | adminui/src/app/client/dashboard/page.tsx:146-154 | Existing items are kept as a prefix. Each new item is appended only if its URL is not yet shown. Afterwards every new URL is shown. |
| ClientDashboard.Place | adminui/src/app/client/dashboard/page.tsx:139-157 | A new group is started, after the unchanged groups, exactly when no group joins the entry. Otherwise the first group it joins gets its media merged with the entry's, and every other group is unchanged. Every group keeps its anchor's description and time. |
| ClientDashboard.MergeFrom | adminui/src/app/client/dashboard/page.tsx:146-154 | Every item of a merge is an existing item or a new one. |
| ClientDashboard.PlaceAddsOnlyNew | adminui/src/app/client/dashboard/page.tsx:139-157 | An item a group shows after placing an entry, and did not show before, is one of that entry's items. |
| ClientDashboard.PlaceSourced | adminui/src/app/client/dashboard/page.tsx:139-157 | If every item shown came from the entries placed so far, this stays true after placing one more. |
| ClientDashboard.GroupAllSourced | adminui/src/app/client/dashboard/page.tsx:139-158 | Every item any group shows comes from one of the entries placed. |
| ClientDashboard.PlaceNewestFirst | adminui/src/app/client/dashboard/page.tsx:139-157 | Placing an entry no newer than any group keeps the groups newest first. |
| ClientDashboard.GroupAllNewestFirst | adminui/src/app/client/dashboard/page.tsx:130-158 | Placing newest-first entries, none newer than an existing group, keeps the groups newest first. |
| ClientDashboard.PlaceApart | adminui/src/app/client/dashboard/page.tsx:141-144 | Placing keeps group anchors from joining one another. |
| ClientDashboard.GroupAll | adminui/src/app/client/dashboard/page.tsx:139-158 | Each entry adds at most one group, and there is at least one group when there are entries. Anchors that were apart stay apart. |
| ClientDashboard.GroupAllCovers | adminui/src/app/client/dashboard/page.tsx:139-158 | Every file of every processed entry is shown by some group. |
| ClientDashboard.GroupedEntries | adminui/src/app/client/dashboard/page.tsx:130-160 | Sorting newest first and then grouping gives at most as many groups as entries, with anchors apart and the groups newest first. |
| ClientDashboard.GroupingKeepsEveryFile | adminui/src/app/client/dashboard/page.tsx:130-160 | Grouping loses no file: every media URL of every entry is shown by some group. |
| ClientDashboard.GroupingInventsNoFile | adminui/src/app/client/dashboard/page.tsx:130-160 | Grouping invents no file: every item a group shows is an item of some entry. |
| ClientDashboard.BestCover | adminui/src/app/client/dashboard/page.tsx:162-167 | Returns the last image if there is one, else the first item, else nothing. |
| ClientDashboard.FolderEntries | adminui/src/app/client/dashboard/page.tsx:174-180 | Returns exactly the entries belonging in the folder. The handover folder also holds certificates. |
| ClientDashboard.FolderEntriesKeepOrder | adminui/src/app/client/dashboard/page.tsx:174-180 | Filing keeps order and repeats: the folder of two lists joined is the two folders joined, and one entry is kept or dropped alone. |
| ClientDashboard.TimelineEntries | adminui/src/app/client/dashboard/page.tsx:169-172 | Returns exactly the TIMELINE entries, and none when the project has no entry list. |
| ClientDashboard.DocumentEntries | adminui/src/app/client/dashboard/page.tsx:174-180 | Returns exactly the folder's entries. A document folder never holds a timeline entry. |
| ClientDashboard.FolderCounts | adminui/src/app/client/dashboard/page.tsx:174-188 | The three folder counts add up to the number of document entries. With the timeline they never exceed the number of entries. |
| ClientDashboard.TotalDocumentCount | adminui/src/app/client/dashboard/page.tsx:186-188 | The total counts each document entry exactly once. With the timeline it never exceeds the number of entries. |
| AdminUi.ClientProjects | adminui/src/app/admin/clients/page.tsx:81 | Returns exactly the client's projects. |
| AdminUi.TallyAppend | adminui/src/app/admin/clients/page.tsx:85-90 | The status figures of a list are the sums of its halves' figures. |
| AdminUi.TallyOne | adminui/src/app/admin/clients/page.tsx:85-90 | One project adds one to its own status's figure, and nothing when its status is not one of the four. |
| AdminUi.TallyBound | adminui/src/app/admin/clients/page.tsx:85-90 | The four figures never add up to more than the list's length. |
| ClientsPage.StatusCounts | adminui/src/app/admin/clients/page.tsx:80-90 | A client's figures never add up to more than its number of projects. |
| ClientsPage.CountsPerClient | adminui/src/app/admin/clients/page.tsx:81-90 | Another client's project leaves the figures unchanged. One of the client's own adds one to its status's figure. |
| ClientsPage.Loaded | adminui/src/app/admin/clients/page.tsx:80-92 | Each client gets its own figures. A missing last activity shows "Recently". |
| ClientsPage.FilteredClients | adminui/src/app/admin/clients/page.tsx:174-181 | Returns exactly the rows whose username contains the search in any case and whose status matches the button. |
| ClientsPage.EmptySearchShowsAll | adminui/src/app/admin/clients/page.tsx:174-181 | An empty search under "all" shows every client. |
| ClientsPage.ActiveAndBlockedSplitAll | adminui/src/app/admin/clients/page.tsx:177-179 | "Active" and "blocked" together show exactly what "all" shows. |
| ClientsPage.UpdatePin | adminui/src/app/admin/clients/page.tsx:102-116 | A PIN whose length is not 4 is refused with the alert. A PIN of length 4 is sent exactly when a client is selected. |
| ClientsPage.RequestedUsername | adminui/src/app/admin/clients/page.tsx:124 | Only the first `@` is removed. |
| ClientsPage.Added | adminui/src/app/admin/clients/page.tsx:125-129 | The new client goes on top, unblocked, with zero figures and "Just now". The rest of the list is unchanged. |
| ClientsPage.Toggled | adminui/src/app/admin/clients/page.tsx:148 | Only rows with that id flip their flag. |
| ClientsPage.ToggleTwice | adminui/src/app/admin/clients/page.tsx:140-156 | Toggling back restores the list. |
| ClientsPage.Deleted | adminui/src/app/admin/clients/page.tsx:163 | Returns exactly the rows with another id. |
| ClientsPage.DeletedKeepsOrder | adminui/src/app/admin/clients/page.tsx:163 | Deleting keeps the other rows' order and repeats: deleting from two lists joined is joining the two results, and one row stays or goes alone. |
| ClientsPage.AddThenDelete | adminui/src/app/admin/clients/page.tsx:118-171 | Adding a client and deleting it restores the list. |
| ClientsPage.CardQuery | adminui/src/app/admin/clients/page.tsx:281-293 | The intended query of each card selects that card's status on the projects page. |
| ClientsPage.CardOpensItsFigure | adminui/src/app/admin/clients/page.tsx:281-293 | With the intended queries, every card opens exactly as many projects as its figure shows. |
| ClientsPage.NotStartedQueryNamesNoStatus | adminui/src/app/admin/clients/page.tsx:293 | `status=not_started` selects no status, so the projects page shows every status. |
| ClientsPage.NotStartedCardOpensEveryStatus | adminui/src/app/admin/clients/page.tsx:293 | A client whose one project is completed sees 0 on the card but 1 project behind it. |
| ProjectsPage.InitialStatus | adminui/src/app/admin/projects/page.tsx:82-88 | The upper-cased query selects a status when it names one, and otherwise everything. |
| ProjectsPage.InitialStatusAnyCase | adminui/src/app/admin/projects/page.tsx:82-88 | A status's name in lower or upper case selects that status. |
| ProjectsPage.FilteredProjects | adminui/src/app/admin/projects/page.tsx:169-180 | Returns exactly the projects that match the search (on title or client name, in any case), the status and the client. |
| ProjectsPage.ListedCount | adminui/src/app/admin/projects/page.tsx:169-180 | With no search, a status and a client, the list is as long as the client's count for that status. |
| ProjectsPage.SubmitProject | adminui/src/app/admin/projects/page.tsx:121-134 | Without a client the form shows its error and nothing is sent. Otherwise the title, description and client are sent. |
| ProjectsPage.ClientName | adminui/src/app/admin/projects/page.tsx:137-140 | Returns the chosen client's name, or "Unknown". |
| ProjectsPage.Created | adminui/src/app/admin/projects/page.tsx:137-144 | The new project goes on top with its client's name and the form's status. The rest of the list is unchanged. |
| ProjectsPage.Deleted | adminui/src/app/admin/projects/page.tsx:162 | Returns exactly the projects with another id. |
| ProjectsPage.DeletedKeepsOrder | adminui/src/app/admin/projects/page.tsx:162 | Deleting keeps the other projects' order and repeats: deleting from two lists joined is joining the two results, and one project stays or goes alone. |
| ProjectsPage.CreateThenDelete | adminui/src/app/admin/projects/page.tsx:121-166 | Creating a project and deleting it restores the list. |
| ProjectsPage.CreatedListedUnderItsStatus | adminui/src/app/admin/projects/page.tsx:137-180 | A new project is listed under the status chosen in the form. |
| AdminDashboard.ComputeStats | adminui/src/app/admin/dashboard/page.tsx:39-48 | Active clients are at most all clients. In-progress and pending (PENDING + DELAYED) projects together are at most all projects. |
| AdminDashboard.OneMoreProject | adminui/src/app/admin/dashboard/page.tsx:39-48 | One more project raises at most one figure, by one: the figure of its status. |
| AdminDashboard.CompletedCountsNowhere | adminui/src/app/admin/dashboard/page.tsx:39-48 | A completed project shows in no figure. |
| AdminDashboard.BlockingLowersClients | adminui/src/app/admin/dashboard/page.tsx:42 | Blocking a client lowers the client figure by one and leaves the project figures unchanged. |
| SettingsPage.WithUser | adminui/src/app/admin/settings/page.tsx:32-34 | The e-mail field takes the signed-in user's e-mail. Nothing else changes. |
| SettingsPage.Submit | adminui/src/app/admin/settings/page.tsx:36-49 | The form is refused exactly when a typed password differs from its confirmation. Otherwise the payload always holds the e-mail, and holds the password exactly when one was typed. |
| SettingsPage.Finish | adminui/src/app/admin/settings/page.tsx:50-57 | Success clears both password fields and shows the success message. A failure keeps the fields and shows the error or the fallback text. |
| SettingsPage.SavedFormResendsEmailOnly | adminui/src/app/admin/settings/page.tsx:36-57 | After a successful save the next submission sends the e-mail only. |
| SettingsPage.SubmitReachesProfile | adminui/src/app/admin/settings/page.tsx:46-49 | The sent payload is what the server's profile handler reads. It changes the password exactly when one was typed. |

## Findings

| source | as written | input that shows it | evidently intended | confidence | as-written member | corrected member |
|---|---|---|---|---|---|---|
| adminui/src/app/admin/clients/page.tsx:293 | The "Not Started" card links to `/admin/projects?status=not_started`. The projects page upper-cases this to `NOT_STARTED`, which is no status, so it falls back to every status. | A client whose only project is COMPLETED. The card shows 0, but its link lists 1 project. | `status=pending`: the card counts PENDING projects, and the other three cards use the lower-cased status name. | high (not executed) | ClientsPage.NotStartedCardOpensEveryStatus | ClientsPage.CardQuery |
| Admin/interior-design-backend/src/index.ts:70 | The error handler turns only messages containing "Only images and videos" into 400 INVALID_FILE_TYPE. The upload filter's message reads "Only images, videos and PDFs are allowed …", so it falls through to the default branch with status 500. | An entry upload with a part of mimetype `text/plain` named `a.txt`. The answer is 500. | A refused file type is a client error, answered 400 with INVALID_FILE_TYPE. | high (not executed) | Upload.AsWrittenAnswers | Upload.IntendedAnswers |

The request pipeline takes the error handler's file-type marker as a parameter (`Routes.ServeWith`). `Routes.Serve` is the application as written: it uses the handler as written, `ErrorHandler.HandleErrorAsWritten`, and `Routes.RefusedUploadChangesNothing` states its answers. The corrected handler `ErrorHandler.HandleError` tests for the filter message's opening words, "Only images". `Routes.RefusedUploadAnsweredAsIntended` states the corrected pipeline's answers. Both handlers are `ErrorHandler.HandleErrorWith` applied to their marker, and `ErrorHandler.HandlersDifferOnlyOnShortMarker` says where they differ. `Upload.UploadErrorStatus` and `Upload.RefusedTypeIsBadRequest` carry the two answers over to an aborted upload. `ClientsPage.CardOpensItsFigure` shows that, with the corrected queries, each card's link lists as many projects as the card shows.

## Left out

- The auth router (`/api/auth`) is not part of this model because its route table is missing. The login and reset handlers are modelled and proved directly, and `Routes.Serve` answers `None` for `/api/auth` paths.
- Secrets: bcrypt is an ideal hash. Salting, cost and timing are not modelled.
- Tokens: jsonwebtoken is a registry of issued tokens. Signatures, the secret and forged tokens are not modelled: a token verifies only if it was issued.
- Prisma is a sequence per table.
  - `findFirst` takes the first row in table order.
  - `orderBy createdAt desc` is a stable sort, which is one admissible order for ties.
  - Connection failures and the other 500 paths that only a failing database reaches are not modelled.
- A request-body field is a string or absent. JSON values of other types (`null`, numbers, objects) are not modelled, nor is Prisma's validation of them.
- The bodies of 500 responses carry the thrown error in the source. Here they carry only the message.
- ErrorHandler.HandleErrorWith: the development-mode `error` field is always the empty object, because `NODE_ENV` is not modelled.
- Upload.Receive: multer's streaming is not modelled. This covers the removal of partial files and the abort of a request on a broken stream. On an abort the disk is left as it was.
- Each request reads the clock once (`Env.nowMs`). The source calls `Date.now()` several times within one request.
- Routing works on path segments after `/api`. Express's case-insensitive matching, trailing slashes, HEAD, OPTIONS and CORS are not modelled.
- Static files, `/health`, `/` and the Swagger documentation are left out, because they serve no application data.
- Requests are applied one at a time. Concurrent requests and races between the PIN scan and the insert are not modelled.
- Rendering is not modelled: React, JSX, `formatDate`, downloads and alerts beyond their text.
- Entries whose `createdAt` is not a valid date (NaN in the browser) are left out. `UiEntry.createdAt` is an integer.
- ClientDashboard.EntryMedia reads only the field names the backend sends. The alternative spellings `media_files`, `mediaFiles`, `file_url` and `url` read as absent.
- A stray `+` in front of the delete route in `admin.routes.ts` is treated as if absent: the route is registered.
- The service wrappers (`services/*.ts`, `lib/api.ts`) are left out. The pages' calls are modelled by what they send and by what the backend answers.
- ProjectsPage.Created shows the form's status, while `createProject` sends no status and the server stores PENDING. The model states the page as written. The discrepancy is not listed as a finding.
- The dashboard's "Pending" figure counts PENDING and DELAYED projects, and the model states exactly that.
- AuthController.ResetPassword: a body without a token matches any admin with a pending, unexpired link. Prisma drops an `undefined` filter, so `resetToken: undefined` places no condition on the token. The model states this as written; `AuthController.ResetWithoutTokenMatchesAnyPendingLink` shows it.
