# Upload service: banner and project workflows

A model of the Express service in `index.js` that stores uploaded images on
disk and records them in two MySQL tables, `banners(id, file_url)` and
`projects(id, project, year, file_url)`. The model covers the part of the
service with real state and failure handling:

- the upload middleware (multer): the MIME allow-list filter, the stored
  name `<millis>_<originalname>` and the disk write;
- the two upload routes, which insert a row with the URL
  `http://localhost:5000/uploads/<name>` and unlink the file again when the
  insert fails;
- the two delete routes, which look the row up, unlink the file named by the
  last `/`-segment of its URL (best effort), and delete the row;
- the global error handler that turns middleware errors into replies.

The uploads directory is a set of file names and each table a map from id to
row, held in the fields of class `Uploads.Server` together with the
autoincrement counter of each table. Outcomes that the service cannot
control are inputs: the clock reading `now`, `writeOk` for the disk write,
`insertOk`, `lookupOk` and `deleteOk` for the database queries, `insertId`
for the id the database gives an inserted row (at or above the counter),
`unlinkOk` for the asynchronous unlink on delete, and `rollbackOk` for the
synchronous unlink on a failed insert.

Files:

- `naming.dfy` (module `Naming`): the pure helpers. These are the allow-list
  test, the decimal timestamp, the stored name, the URL, and
  `split('/')` with its last element.
- `responses.dfy` (module `Responses`): reply bodies, messages and the
  global error handler.
- `server.dfy` (module `Uploads`): the MIME filter, the class `Server` and the
  four workflows, each route split into the middleware step and its handler
  as in the source. Each handler's outcome is stated by a predicate over the
  state before and after (`BannerHandled`, `ProjectHandled`, `BannerDeleted`,
  `ProjectDeleted`), and lemmas over those predicates say when the rows and
  the files stay consistent.
- `scenarios.dfy` (module `Scenarios`): facts about an upload followed by a
  delete, derived from those predicates, and two request sequences applied
  to a fresh `Server` in the model.
- `wrappers.dfy` (module `Wrappers`): `Option` and `Result`.

In four places the code does not do what a reader of an upload API would
expect: a 400-class answer to a bad file type, cleanup of a file whose
request was turned away, an answer to every request, and only two failures
on delete. The model follows the code:

- A disallowed MIME type is rejected with a plain `Error`, not a
  `MulterError`. The global handler therefore answers 500
  "Internal server error", not a 400-class error (`FileFilter`,
  `PdfBannerRefused`).
- A project upload with a missing or empty `project` or `year` answers 400
  only after the middleware has written the file. That file stays in the
  uploads directory (`UploadProject`).
- When the rollback `unlinkSync` throws, the exception escapes the database
  callback and no reply is sent. The model's reply is `Uncaught` and the file
  stays. What happens to the service after that is not modelled (see
  "## Left out").
- The delete routes have a third failure: the lookup query can fail. They
  answer 500 and change nothing.

Facts the proofs bring out:

- The stored name is `now` in decimal, then `_`, then the original name, with
  no sanitising. Two uploads share a name only when both the millisecond and
  the original name agree (`StoredNameInjective`).
- The delete routes recover the stored name from the URL exactly when the
  original name holds no `/` (`StoredUrlRoundTrip`). Otherwise they unlink
  the part of the original name after its last `/`, and the stored file
  remains as an orphan (`SlashNameUnlinksTail`, `BannerOrphanedBySlashName`).
- The service keeps "every row's derived file name names an existing file"
  (`Uploads.Linked`) only on a best-effort basis. An upload keeps it when
  the stored name holds no `/` and is new. When no other row derives the same
  file name, a delete keeps it in every outcome except one: the unlink works
  and the row delete fails, so the row stays and its file is gone.

## Model

| member | source | states |
|---|---|---|
| Naming.Includes | index.js:43 | `includes` is true exactly when the MIME type is an element of the list |
| Naming.MimeAllowed | index.js:30 | the allow-list test passes exactly `image/jpeg`, `image/png` and `image/webp` |
| Uploads.FileFilter | index.js:42-47 | the filter lets a type through exactly when it is one of the three allowed types; a rejection is a non-Multer error, which the global handler answers with 500 "Internal server error" |
| Responses.ErrorReply | index.js:159-164 | a middleware error gets status 400 exactly when it is a `MulterError`, with that error's message; any other error gets 500 "Internal server error" |
| Naming.Decimal | index.js:39 | the timestamp's text is a non-empty string of digits with no leading zero |
| Naming.DecimalRoundTrip | index.js:39 | reading the timestamp's text back as a number gives the timestamp |
| Naming.StoredName | index.js:39 | the stored name ends with the original name unchanged, and holds a `/` exactly when the original name does |
| Naming.StoredNameInjective | index.js:39 | equal stored names come only from equal timestamps and equal original names |
| Naming.FileUrl | index.js:56 | the URL ends with `/` followed by the stored name |
| Naming.Split | index.js:82 | `split('/')` gives at least one part; no part holds the separator; joining the parts with it gives the input back |
| Naming.FileNameOf | index.js:82 | the name `pop()` takes from the split URL holds no `/` |
| Naming.SplitWithoutSeparator | index.js:82 | a string without the separator splits into itself alone |
| Naming.SplitLastAfterSeparator | index.js:144 | the last part of `p + '/' + q` is the last part of `q`, whatever `p` is |
| Naming.UrlNameRoundTrip | index.js:56-82 | the last `/`-segment of a generated URL is the name it was built from exactly when that name holds no `/` |
| Naming.StoredUrlRoundTrip | index.js:106-144 | for an upload, the delete handler recovers the stored name exactly when the original name holds no `/` |
| Naming.SlashNameUnlinksTail | index.js:144 | when the original name holds a `/`, the delete handler derives the last segment of the original name, which differs from the stored name |
| Uploads.Server.ReceiveFile | index.js:31-48 | no part leaves the directory alone; a rejected type or a failed write is an error and writes nothing; an accepted part adds exactly `<now>_<originalname>` |
| Uploads.Server.UploadBanner | index.js:53-64 | no file: 400 and nothing changes; middleware error: 500 and nothing changes; otherwise the banner handler's outcome on the written file |
| Uploads.Server.HandleBannerUpload | index.js:54-63 | failed insert: 500, the file is removed, no row; a throwing rollback: no reply, the file stays; success: 201 with the id the database assigned, which no row uses, and the URL; exactly one new row under that id with that URL, and the counter moves past the id |
| Uploads.Server.UploadProject | index.js:99-125 | no file: 400 and nothing changes; middleware error: 500 and nothing changes; otherwise the project handler's outcome on the written file |
| Uploads.Server.HandleProjectUpload | index.js:100-124 | missing or empty `project` or `year`: 400, no row, the written file stays; failed insert: 500, the file is removed, no row; success: 201 echoing the assigned unused id, URL, project and year; exactly one new row under that id, and the counter moves past the id |
| Uploads.Server.DeleteBanner | index.js:75-94 | lookup failure: 500, nothing changes; unknown id: 404, nothing changes; otherwise the derived file is removed when the unlink works; a failed row delete answers 500 with the row kept; success answers 200 with exactly that row gone |
| Uploads.Server.DeleteProject | index.js:136-156 | the same outcomes as the banner delete, on the projects table |
| Uploads.BannerUploadKeepsLinked | index.js:53-64 | if every row's derived file exists before, and the written name is new and has no `/`, then every outcome of the banner handler leaves every row's derived file existing |
| Uploads.ProjectUploadKeepsLinked | index.js:99-125 | the same for the project handler, including the 400 for a missing field, which keeps the written file |
| Uploads.BannerDeleteKeepsLinked | index.js:75-94 | when no other row derives the same file name, every row's derived file still exists after a banner delete exactly unless the lookup worked, the row existed, the unlink worked and the row delete failed |
| Uploads.ProjectDeleteKeepsLinked | index.js:136-156 | the same for a project delete |
| Scenarios.BannerUploadThenDelete | index.js:53-94 | a successful banner upload followed by a successful delete of its row answers 201 then 200, restores the table and removes the file named by the URL's last segment |
| Scenarios.BannerUploadThenDeleteRemovesFile | index.js:53-94 | when the original name has no `/`, that upload and delete restore the table and remove exactly the stored file |
| Scenarios.BannerOrphanedBySlashName | index.js:75-94 | with a `/` in the original name, upload then delete restores the table but leaves the stored file behind and removes the name after the original name's last `/` instead |
| Scenarios.ProjectLifecycle | index.js:99-156 | on an empty service, project "Atrium"/"2024" stored under the id the database assigns is answered with that id and its URL; the table then holds that row; the delete answers 200 and empties it; a second delete answers 404 |
| Scenarios.PdfBannerRefused | index.js:42-47 | an `application/pdf` banner is answered with 500 and leaves the directory and the table empty |

## Left out

- The list routes `GET /banners` and `GET /projects` (index.js:67-72,
  128-133). They return the table contents, which here are the `banners` and
  `projects` fields.
- Express, CORS, JSON parsing and static serving of `/uploads`
  (index.js:12-14). This is HTTP plumbing.
- The MySQL connection and the SQL text (index.js:17-27). Each query's
  success or failure is an input.
- Autoincrement: the id of an inserted row is the input `insertId`, required
  to be at or above the table's counter, and the counter moves past it. A
  failed insert leaves the counter alone. Since the next id may be any value
  at or above the counter, an id MySQL consumes on a failed insert is
  covered, but the model does not say by how much ids advance.
- Route ids are natural numbers. The source passes the `:id` text to MySQL,
  and MySQL's conversion of that text is not part of this model.
- The `project` and `year` fields are strings, present or absent. A field
  sent twice, which the multipart parser turns into an array, is not modelled.
- Errors multer raises itself (a `MulterError`, for example a file under an
  unexpected field name) come from library code outside this model. Their
  answer is modelled in `ErrorReply`. No workflow input produces one.
- The filesystem calls `existsSync`/`mkdirSync` (index.js:35) and the path
  normalisation of `path.join` (index.js:34, 83, 145). The uploads directory
  is a flat set of names. A stored name holding `/` is one more element of
  that set, not a path into a sub-directory. Whether the multipart parser can
  deliver such a name is library behaviour outside this model.
- `Date.now()` is the input `now`, a natural number. No clock is modelled.
- After an `Uncaught` reply (a rollback `unlinkSync` that throws inside the
  query callback, index.js:59, 113), the files and tables are as the model
  states, but the service itself most likely stops: index.js registers no
  `uncaughtException` or connection `error` handler, so the exception ends
  the process or leaves the single database connection unusable. The model
  lets later requests run as if the service went on; it does not capture
  that the service stops.
- Interleaving of callbacks and concurrent requests. Each workflow runs as
  one atomic step.
- Logging and server start (index.js:86, 148, 167-169).
