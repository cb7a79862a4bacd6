# Les Beaux Projets catalog — a Dafny model

This project models the project catalog of the Les Beaux Projets web site
and the page logic around it, and proves properties of that model with
Dafny.

- **Catalog server** (`server/index.js`). One SQLite table `projects`. At
  startup the server creates the table if it is missing and adds the
  `images` column if an older table lacks it. It seeds eight sample
  projects only when the table is empty. `GET /api/projects` lists the rows
  newest first, with the `images` column decoded. `POST /api/projects`
  creates a row; `DELETE /api/projects/:id` removes one. Both sit behind an
  admin-token gate (`requireAuth`). Uploaded files are named
  `<Date.now()>_<sanitised base name><extension>` and served under
  `/uploads/`. Modules `Auth`, `Uploads` and `Catalog`; the running
  database is the class `Catalog.ProjectDb`.
- **Client adapter** (`services/store.ts`). It prefixes server-relative
  `/uploads` paths with the API origin (`absolutify`) and normalises
  fetched and created projects. It builds the multipart form of a creation
  with successive `append` calls and picks the `x-admin-token` header.
  Module `Store`.
- **Admin page** (`pages/Admin.tsx`). A login checked against the
  configured token, plus the local project list with delete, create and
  edit. An edit is a delete followed by a create. Class
  `Admin.AdminPanel`.
- **Portfolio page** (`pages/Portfolio.tsx`). The category filter and the
  image carousel, which steps its index with JavaScript's `%`. Module
  `Portfolio`, class `Portfolio.Carousel`.
- **Estimate wizard** (`pages/Estimate.tsx`). Three steps, a submit guard,
  and the mapping onto the legacy estimate record, which splits the full
  name at its first space. Class `Estimate.EstimateWizard`.

Clock readings, `window.confirm`, and the outcomes of network and mail
calls are parameters. An absent header or form field is the empty string,
because the source only ever tests those for truthiness. The `images`
column is kept decoded: `None` stands for SQL NULL, `Some(paths)` for the
JSON array. `created_at` is a number of seconds.

Four behaviours of `server/index.js` are easy to misread; the model
follows the code:

- A creation request that fails validation (400) has already had its files
  written. The upload parser runs before the field checks, so
  `Catalog.ProjectDb.Create` adds the uploaded names to the upload store
  whenever the gate passes.
- A creation without gallery files answers 201 with `images: null`: the
  handler decodes the column only when it is non-null. The listing still shows `[]`
  (`Catalog.CreatedGallery`, `Catalog.CreateThenList`).
- An id collision on insert is not caught. For a multipart request the
  insert runs in the upload parser's asynchronous completion callback,
  outside Express's error handling, so the exception ends the server
  process and no answer is sent. The model's
  outcome is `Crashed`, which has no status code; nothing is inserted and
  the files already written stay.
- The list order among rows with equal `created_at` is whatever SQLite
  returns. The model keeps storage order among ties but claims nothing
  about it.

One consequence of the code is proved as a lemma rather than reported as a
fault. Editing a project without picking new files re-sends only its cover
URL, so the re-created row has no gallery
(`Admin.EditWithoutUploadsDropsGallery`).

## Model

| member | source | states |
|---|---|---|
| Common.DecimalRoundTrip | server/index.js:192 | reading back the decimal digits of a clock value gives the value, so ids built from `Date.now()` encode the time exactly |
| Common.DecimalStringInjective | server/index.js:192 | distinct clock readings give distinct id strings |
| Common.DecimalPrefixInjective | server/index.js:137 | a clock reading followed by `_` and any text is read back unambiguously: equal strings of that form have equal readings |
| Uploads.SplitExtension | server/index.js:135-136 | base name and extension split the last path component in two; a non-empty extension starts with its only `.` and follows a non-empty base |
| Uploads.SanitizeBase | server/index.js:136 | the sanitised base has the original length, only `[a-z0-9_]`, `_` exactly where the original had a character outside `[A-Za-z0-9]`, lower-case letters and digits kept, and each upper-case letter turned into its lower-case form |
| Uploads.SanitizedNameKeepsExtension | server/index.js:135-137 | the sanitised name ends with the original extension verbatim and is as long as the original last component |
| Uploads.SanitizedNameHasNoSeparator | server/index.js:136-137 | sanitising never produces a `/` |
| Uploads.StoredFileNameHasNoSeparator | server/index.js:137 | a stored file name is a single path component |
| Uploads.StoredFileBasename | server/index.js:185 | `path.basename` of the stored file's full path is exactly the stored name, whatever the upload directory |
| Uploads.StoredPath | server/index.js:185 | every recorded upload path starts with `/uploads/` |
| Uploads.StoredNamesDifferBySavedAt | server/index.js:137 | two files named at different milliseconds get different stored names, whatever their original names |
| Auth.ServerAdminToken | server/index.js:12 | the server's token is never empty; a non-empty environment value is used as is |
| Auth.BearerValue | server/index.js:163 | with the exact prefix `"Bearer "` the value is the rest of the header; without it, empty |
| Auth.ProvidedToken | server/index.js:161-164 | a non-empty bearer value wins; otherwise `x-admin-token` is used |
| Auth.AuthorizedIff | server/index.js:160-169 | a request passes iff the token is non-empty and either the Authorization header is `"Bearer "` plus it, or (no bearer value) `x-admin-token` equals it |
| Auth.WrongBearerOverridesHeader | server/index.js:163-166 | a wrong non-empty bearer value is rejected even with the right `x-admin-token` |
| Auth.LowerCaseSchemeRejected | server/index.js:163 | the scheme is case-sensitive: `bearer <token>` alone is rejected |
| Auth.MissingCredentialsRejected | server/index.js:165-166 | no empty credential passes the running server's gate |
| Auth.RightTokenAccepted | server/index.js:160-169 | the right token is accepted through either header |
| Catalog.MigrateColumns | server/index.js:39-43 | after migration the `images` column exists; the migration only appends, and at most one column |
| Catalog.MigrationIdempotent | server/index.js:39-43 | migrating twice is migrating once |
| Catalog.SampleRows | server/index.js:51-116 | the seed is eight rows with distinct ids, no gallery and the seeding time |
| Catalog.StartupTable | server/index.js:25-121 | after startup the `images` column exists and the table is non-empty; existing columns are kept; a non-empty table keeps its rows; a missing or empty table holds exactly the eight sample rows |
| Catalog.RestartChangesNothing | server/index.js:39-121 | starting again on the database a startup left changes nothing: no second migration, no second seed |
| Catalog.ProjectDb.Startup | server/index.js:25-121 | the startup code, including the seed loop, produces exactly the startup table and leaves the ids unique |
| Catalog.DecodeImages | server/index.js:155 | a listed row always has an array of images: the stored one, or `[]` for NULL |
| Catalog.SortNewestFirstCorrect | server/index.js:152 | the ordering returns a permutation of the rows with non-increasing `created_at` |
| Catalog.InsertNewestFirstCorrect | server/index.js:152 | inserting one row into rows ordered newest first adds exactly that row and keeps the order |
| Catalog.ListRows | server/index.js:151-157 | the listing holds every row once, decoded, newest first, each with an images array |
| Catalog.ListedRow | server/index.js:151-157 | every stored row appears in the listing |
| Catalog.ListedRowIndex | server/index.js:151-157 | gives the position at which a stored row appears, decoded, in the listing |
| Catalog.StatusCode | server/index.js:165-208 | 201 and 204 are the only success codes; 400 and 401 the client errors; 401 exactly for the gate; no status exactly when the process crashed |
| Catalog.CoverPath | server/index.js:183-186 | an uploaded cover gives `/uploads/<stored name>`; otherwise the `imageUrl` field is used |
| Catalog.GalleryPaths | server/index.js:190 | one `/uploads/` path per gallery file, in upload order |
| Catalog.ImagesValue | server/index.js:191 | the column is NULL exactly when there is no gallery file |
| Catalog.UploadedNamesExactly | server/index.js:172-175 | the upload parser writes exactly the cover and the gallery files |
| Catalog.CreateOutcome | server/index.js:171-201 | a row is created iff the gate passes, the four text fields are non-empty, a cover exists and the id is fresh; the created row carries the request's fields, the resolved cover and the gallery; 401 exactly when the gate fails; 400 exactly when it passes but a field or the cover is missing; a crash exactly when every check passes and the id is taken |
| Catalog.CreateChecksInOrder | server/index.js:171-189 | a creation answers 201, 400 or 401, or crashes on an id collision; 401 before the field check; the missing-fields 400 before the missing-cover 400; a request passing every check with a taken id crashes |
| Catalog.CoverFileTakesPrecedence | server/index.js:183-186 | with an uploaded cover, the `imageUrl` field has no effect on the outcome |
| Catalog.CreatedGallery | server/index.js:190-200 | the created row's gallery is NULL iff no file was sent, else the stored paths in upload order |
| Catalog.CreateThenList | server/index.js:151-200 | a created project is listed with its gallery paths in upload order, `[]` when it has none |
| Catalog.RemoveRow | server/index.js:207 | after delete no row has the id, and exactly the other rows remain |
| Catalog.RemoveKeepsOrder | server/index.js:207 | the remaining rows keep their storage order |
| Catalog.RemoveAbsentIsNoOp | server/index.js:207 | deleting an absent id changes nothing |
| Catalog.RemoveIdempotent | server/index.js:205-209 | deleting twice is deleting once |
| Catalog.RemoveExactlyOne | server/index.js:207 | with unique ids, a present id removes exactly one row, and ids stay unique |
| Catalog.UniqueIdsAppend | server/index.js:193-196 | inserting a row with a fresh id keeps the primary key unique |
| Catalog.ProjectDb.Create | server/index.js:171-203 | the handler's state change: an unauthorised request changes nothing and writes no file; an authorised one writes its files; only a 201 appends the row; ids stay unique |
| Catalog.ProjectDb.Delete | server/index.js:205-209 | an unauthorised delete answers 401 and changes nothing; an authorised one answers 204 and removes the id's row |
| Store.ApiUrl | services/store.ts:3 | the API origin is never empty; a configured origin is used as is |
| Store.Absolutify | services/store.ts:6-7 | a URL starting with `/uploads` gets the origin in front; any other is returned unchanged |
| Store.AbsolutifyIdempotent | services/store.ts:6-7 | absolutifying twice equals once, when the origin does not start with `/uploads` |
| Store.DefaultApiUrlIsAbsolute | services/store.ts:3 | the default origin satisfies that condition |
| Store.AbsolutifyAll | services/store.ts:19 | the gallery keeps its length and order, each entry absolutified |
| Store.Normalize | services/store.ts:16-20 | a normalised project keeps its fields, absolutifies its cover and gallery, and turns a null gallery into `[]` |
| Store.FetchProjects | services/store.ts:9-21 | a non-2xx answer throws; otherwise the projects keep their number and order, each normalised |
| Store.FetchListing | services/store.ts:9-21 | fetching the server's listing gives as many projects as rows, and each project carries some row's id and gallery length |
| Store.FetchListingCoversRows | services/store.ts:9-21 | every stored row is represented in the fetched listing by a project with its id and gallery length |
| Store.BuildForm | services/store.ts:29-40 | the append sequence, with its `forEach` loop, builds exactly the expected form |
| Store.FormContents | services/store.ts:29-40 | the form carries each text field once with its value, `imageUrl` only when non-empty, the gallery files in order, and a cover only if chosen |
| Store.TextPartContents | services/store.ts:30-36 | the text entries read back field by field, with no file among them |
| Store.GalleryPartContents | services/store.ts:37 | the gallery entries are exactly the files under the name `images` |
| Store.CoverPartContents | services/store.ts:38-40 | the cover entry, when present, is the one file under the name `cover` and carries no text |
| Store.TokenHeader | services/store.ts:45 | the header is the given token when non-empty, else the configured one |
| Store.ClientCredentialAccepted | services/store.ts:42-48 | the server accepts the adapter's request iff the chosen header equals the server's token |
| Store.CreateResult | services/store.ts:50-60 | creation throws iff the answer is not 2xx; otherwise it returns the normalised created project |
| Store.RemoveResult | services/store.ts:71-73 | removal throws iff the answer is neither 2xx nor 204 |
| Store.RemoveFailsIffNotOk | services/store.ts:71-73 | that is the same as not 2xx; the server's 204 succeeds and its 401 fails |
| Admin.Prefill | pages/Admin.tsx:296-302 | the edit form copies title, category, location, description and cover URL |
| Admin.WithoutProject | pages/Admin.tsx:88 | after a local delete exactly the projects with other ids remain |
| Admin.WithoutProjectKeepsOrder | pages/Admin.tsx:88 | the remaining projects keep their order |
| Admin.ReplaceProject | pages/Admin.tsx:106 | replacing keeps the list's length |
| Admin.ReplaceProjectInPlace | pages/Admin.tsx:106 | only entries with the edited id change, in place; no such entry means no change |
| Admin.AdminPanel.Mount | pages/Admin.tsx:20-61 | the page starts logged in iff the session flag is set, with the fetched list or the load error |
| Admin.AdminPanel.LoadProjects | pages/Admin.tsx:42-54 | a successful load replaces the list; a failed one keeps it and sets the load error; loading ends either way |
| Admin.AdminPanel.HandleLogin | pages/Admin.tsx:63-76 | login authenticates iff a token is configured and the password equals it; no token gives the configuration error; a wrong password gives the password error |
| Admin.AdminPanel.HandleLogout | pages/Admin.tsx:78-81 | logout clears the authenticated flag and the session flag |
| Admin.AdminPanel.ToggleAdding | pages/Admin.tsx:172 | the button flips the form's visibility and nothing else |
| Admin.AdminPanel.StartEdit | pages/Admin.tsx:293-303 | edit opens the form on the project's fields and leaves the picked files alone |
| Admin.AdminPanel.HandleDelete | pages/Admin.tsx:83-95 | a declined confirm changes nothing and makes no server call; a confirmed one asks the server to delete exactly `id`; a successful removal filters the id out; a failed one keeps the list; the deleting marker is cleared |
| Admin.AdminPanel.HandleAddProject | pages/Admin.tsx:97-131 | an edit first asks the server to delete exactly the edited id (a new project asks for no deletion) and sends only if that worked; success replaces the edited entry in place or prepends the new one, and resets the form; failure leaves list and form as they were; saving ends false |
| Admin.AdminPanel.CloseForm | pages/Admin.tsx:114-124 | after a successful save the form is closed, no edit is pending, the draft is blank and no file is picked; the list and session are untouched |
| Admin.EditWithoutUploadsDropsGallery | pages/Admin.tsx:293-303 | an edit with no new files sends the old cover URL and no files, and the re-created row has a NULL gallery |
| Portfolio.FilterProjects | pages/Portfolio.tsx:46-48 | `Tous` shows every project; any other filter shows exactly the projects of that category |
| Portfolio.FilterProjectsIsSubsequence | pages/Portfolio.tsx:46-48 | the filtered list is a subsequence of the projects, so it keeps their order and is no longer |
| Portfolio.FilterProjectsCounts | pages/Portfolio.tsx:48 | a category filter keeps every occurrence of each project of that category and nothing else |
| Portfolio.CarouselImages | pages/Portfolio.tsx:191 | the slides are never empty and the first one is the cover |
| Portfolio.CarouselImagesAreCoverThenGallery | pages/Portfolio.tsx:191 | both branches give the cover followed by the gallery |
| Portfolio.JsRem | pages/Portfolio.tsx:248-249 | JavaScript's remainder: the Euclidean remainder, in `[0, b)`, for a non-negative left operand; in `(-b, 0]` and equal to minus the remainder of `-a` otherwise |
| Portfolio.NextIndex | pages/Portfolio.tsx:249 | `next` keeps the index in range, moves one on, and wraps from the last slide to 0 |
| Portfolio.PrevIndex | pages/Portfolio.tsx:248 | `prev` keeps the index in range, moves one back, and wraps from 0 to the last slide |
| Portfolio.StepRoundTrips | pages/Portfolio.tsx:248-249 | `prev` after `next`, and `next` after `prev`, restore the index |
| Portfolio.NextTimesCompose | pages/Portfolio.tsx:249 | `a + b` presses of `next` are `a` presses followed by `b` |
| Portfolio.NextTimesWithinRange | pages/Portfolio.tsx:249 | before the end, each press advances by one |
| Portfolio.NextCycles | pages/Portfolio.tsx:249 | `count` presses of `next` return to the starting slide |
| Portfolio.Carousel.constructor | pages/Portfolio.tsx:244-246 | the carousel starts on slide 0 |
| Portfolio.Carousel.Next | pages/Portfolio.tsx:249 | the arrow keeps the index in range and the image list unchanged |
| Portfolio.Carousel.Prev | pages/Portfolio.tsx:248 | the arrow keeps the index in range and the image list unchanged |
| Portfolio.Carousel.SetImages | pages/Portfolio.tsx:251-253 | a new image list resets the index to 0 |
| Portfolio.Carousel.Shown | pages/Portfolio.tsx:255-262 | an empty list draws nothing; otherwise the current slide, or the placeholder for an empty URL, never an empty source |
| Estimate.WithField | pages/Estimate.tsx:40-42 | a change sets the named field, for each of the nine fields, and leaves the others as they were |
| Estimate.Split | pages/Estimate.tsx:63 | splitting gives at least one piece and no piece holds the separator |
| Estimate.JoinSplit | pages/Estimate.tsx:63-64 | joining the pieces with the separator gives the string back |
| Estimate.SplitCount | pages/Estimate.tsx:63-64 | there is more than one piece iff the separator occurs |
| Estimate.NameRoundTrip | pages/Estimate.tsx:63-64 | the first name has no space; with a space, first name, space and last name rebuild the name; without one, the first name is the name and the last name is empty |
| Estimate.NameSplitsAtFirstSpace | pages/Estimate.tsx:63-64 | the first name is the text before the first space and the last name the text after it |
| Estimate.Submission | pages/Estimate.tsx:62-80 | the record maps type to service, address to address and city, message to description, contact by email, and leaves the five unused fields empty |
| Estimate.SubmissionKeepsName | pages/Estimate.tsx:63-64 | the sent first and last names rebuild the contact name |
| Estimate.EstimateWizard.constructor | pages/Estimate.tsx:13-34 | the wizard starts on step 1, with the `service` parameter preselected as the work type when given |
| Estimate.EstimateWizard.HandlePrev | pages/Estimate.tsx:38 | one step back, never below 1 |
| Estimate.EstimateWizard.HandleChange | pages/Estimate.tsx:40-42 | the named field changes and nothing else |
| Estimate.EstimateWizard.HandleTypeSelect | pages/Estimate.tsx:44-47 | choosing a type records it and moves to step 2 |
| Estimate.EstimateWizard.HandleBudgetSelect | pages/Estimate.tsx:49-52 | choosing a budget records it and moves to step 3 |
| Estimate.EstimateWizard.HandleSubmit | pages/Estimate.tsx:54-91 | without name, email or message nothing happens; otherwise the mapped record is sent, success marks the wizard submitted, failure sets the error, and submitting ends false |

## Left out

- HTTP plumbing is not modelled: Express routing, CORS, static serving of
  `/uploads`, `GET /` and `GET /api/health`, JSON bodies, and the logging.
- Multipart parsing is abstracted into `Catalog.CreateRequest`. Not
  modelled: multer's count limits (one cover, twenty images), its error,
  which the handler's callback ignores, the creation of the upload
  directory, and repeated text fields, which multer turns into arrays.
- Time is not modelled: `Date.now()` and `datetime('now')` are parameters.
  Each upload carries its own millisecond reading, and nothing relates it to
  the id's reading.
- `JSON.stringify`/`JSON.parse` of the gallery is an exact encoding of a
  sequence of strings.
- The process exit after the uncaught primary-key violation is the
  terminal outcome `Crashed`; the restart that follows is
  `Catalog.ProjectDb.Startup` on the database left behind.
- Concurrent requests, and the clock collisions they cause, are outside
  this sequential model.
- `path.join` normalisation of the upload directory is not modelled:
  `Uploads.StoredFileBasename` joins with a single `/`.
- Uploads.SanitizeBase: the model works on Unicode code points. JavaScript
  replaces each UTF-16 code unit, so a character outside the Basic
  Multilingual Plane becomes `__` there and `_` here. Length is therefore
  kept in code units in the source and in code points in the model.
- The database file, the `data/` directory and disk failures are not
  modelled.
- Network failures are not modelled separately. The adapter's functions
  take the HTTP answer. The admin page takes each awaited call's outcome as
  a `Result`, which covers a rejected `fetch` as well as a thrown error.
  A body that fails to parse is not modelled.
- Browser effects are not modelled. `window.confirm` is a parameter.
  `alert`, `console`, `scrollTo` and animations leave no modelled state.
  `sessionStorage` is the `sessionFlag` field.
- The 200 ms `setTimeout` before the wizard changes step is not modelled:
  the step changes at once.
- The mail service (`sendEstimateEmail`) is not modelled; its outcome is
  the `sendSucceeds` parameter.
- The admin page's controlled inputs (password box, form inputs, file
  pickers) are not modelled beyond the fields they fill.
- `Admin.AdminPanel.HandleAddProject` does not model the `if (created)`
  test, which is always true for the object the adapter returns.
- The portfolio page's own loading and error state, and the selected
  project, are not modelled. Its load follows the same pattern as
  `Admin.AdminPanel.LoadProjects`.
- `Estimate.EstimateWizard.HandleChange` only accepts the nine form fields.
  The source's computed key would accept any name.
- Header parsing is not modelled: each header is the single string Node
  hands the handler. Node lower-cases the names, keeps only the first of
  repeated `authorization` headers and joins repeated `x-admin-token`
  values with `, ` into one string, which the gate then compares as it
  stands.
