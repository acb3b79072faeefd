/** The upload and delete workflows of the two resources, banners and
    projects, over abstract state: the names in the uploads directory and one
    table per resource. Outcomes of the disk and of the database are
    parameters (`writeOk`, `insertOk`, ...), and so is the id the database
    assigns to an inserted row (`insertId`); the clock reading is `now`. */
module Uploads {

  import opened Wrappers
  import opened Naming
  import opened Responses

  /** The file part of a multipart request, as the middleware sees it. */
  datatype FilePart = FilePart(originalName: string, mimeType: string)

  /** A row of the `banners` table (its id is the map key). */
  datatype Banner = Banner(fileUrl: string)

  /** A row of the `projects` table (its id is the map key). */
  datatype Project = Project(project: string, year: string, fileUrl: string)

  /** The MIME filter of the middleware: it rejects a type outside the
      allow-list with a plain error, which the global handler answers with
      500 rather than 400. */
  function FileFilter(mime: string): (r: Option<MiddlewareError>)
    ensures r.None? <==> mime == "image/jpeg" || mime == "image/png" || mime == "image/webp"
    ensures r.Some? ==> !r.value.MulterError? && ErrorReply(r.value) == Respond(500, ErrorBody(InternalErrorMessage))
  {
    if !MimeAllowed(mime) then Some(FilterRejected(FilterMessage)) else None
  }

  /** A text field of the multipart body is truthy: present and not empty. */
  predicate Present(field: Option<string>) {
    field.Some? && field.value != ""
  }

  /** The middleware writes the file: a part came, its type passed the
      filter and the disk write succeeded. */
  predicate Written(part: Option<FilePart>, writeOk: bool) {
    part.Some? && MimeAllowed(part.value.mimeType) && writeOk
  }

  /** What the banner upload handler does once the middleware wrote `name`:
      a failed insert unlinks the file (or, when that unlink throws, leaves
      it and sends no reply); a successful insert adds one row, under the
      unused id `insertId` the database assigned, whose URL is the file's
      URL, and the counter moves past that id. `files`, `rows` and `next`
      are the state before, the primed ones the state after. */
  ghost predicate BannerHandled(files: set<string>, rows: map<nat, Banner>, next: nat, name: string,
                                insertOk: bool, insertId: nat, rollbackOk: bool,
                                files': set<string>, rows': map<nat, Banner>, next': nat, reply: Reply)
  {
    if !insertOk && rollbackOk then
      reply == DatabaseError && files' == files - {name} && rows' == rows && next' == next
    else if !insertOk then
      reply == Uncaught && files' == files && rows' == rows && next' == next
    else
      var url := FileUrl(name);
      reply == Respond(201, BannerCreated(insertId, url))
      && insertId !in rows
      && files' == files && rows' == rows[insertId := Banner(url)] && next' == insertId + 1
  }

  /** What the project upload handler does once the middleware wrote `name`:
      with a field missing it answers 400 and keeps the file; a failed
      insert unlinks the file (or, when that unlink throws, leaves it and
      sends no reply); a successful insert adds one row under the unused id
      `insertId` the database assigned and echoes the fields. `files`, `rows` and `next` are the state before,
      the primed ones the state after. */
  ghost predicate ProjectHandled(files: set<string>, rows: map<nat, Project>, next: nat, name: string,
                                 project: Option<string>, year: Option<string>,
                                 insertOk: bool, insertId: nat, rollbackOk: bool,
                                 files': set<string>, rows': map<nat, Project>, next': nat, reply: Reply)
  {
    if !(Present(project) && Present(year)) then
      reply == Respond(400, ErrorBody(MissingFieldsMessage))
      && files' == files && rows' == rows && next' == next
    else if !insertOk && rollbackOk then
      reply == DatabaseError && files' == files - {name} && rows' == rows && next' == next
    else if !insertOk then
      reply == Uncaught && files' == files && rows' == rows && next' == next
    else
      var url := FileUrl(name);
      reply == Respond(201, ProjectCreated(insertId, url, project.value, year.value))
      && insertId !in rows
      && files' == files && rows' == rows[insertId := Project(project.value, year.value, url)]
      && next' == insertId + 1
  }

  /** Every row's file name, as the delete handlers derive it, names a file
      in the uploads directory. The service keeps this only on a best-effort
      basis. */
  ghost predicate Linked(files: set<string>, banners: map<nat, Banner>, projects: map<nat, Project>) {
    && (forall id :: id in banners ==> FileNameOf(banners[id].fileUrl) in files)
    && (forall id :: id in projects ==> FileNameOf(projects[id].fileUrl) in files)
  }

  /** No row other than banner `id` derives the file name `name`. */
  ghost predicate OnlyBannerNames(banners: map<nat, Banner>, projects: map<nat, Project>, id: nat, name: string) {
    && (forall b :: b in banners && b != id ==> FileNameOf(banners[b].fileUrl) != name)
    && (forall p :: p in projects ==> FileNameOf(projects[p].fileUrl) != name)
  }

  /** No row other than project `id` derives the file name `name`. */
  ghost predicate OnlyProjectNames(banners: map<nat, Banner>, projects: map<nat, Project>, id: nat, name: string) {
    && (forall b :: b in banners ==> FileNameOf(banners[b].fileUrl) != name)
    && (forall p :: p in projects && p != id ==> FileNameOf(projects[p].fileUrl) != name)
  }

  /** A banner upload keeps every row's file present when the written name
      is new and holds no `/`: the rollback removes a file no row uses, and
      a new row derives exactly the name just written. */
  lemma BannerUploadKeepsLinked(files: set<string>, banners: map<nat, Banner>, projects: map<nat, Project>,
                                next: nat, name: string, insertOk: bool, insertId: nat, rollbackOk: bool,
                                files': set<string>, banners': map<nat, Banner>, next': nat, reply: Reply)
    requires Linked(files, banners, projects) && name !in files && '/' !in name
    requires BannerHandled(files + {name}, banners, next, name, insertOk, insertId, rollbackOk, files', banners', next', reply)
    ensures Linked(files', banners', projects)
  {
    UrlNameRoundTrip(name);
  }

  /** The same for a project upload; a missing field leaves the new file in
      place, which keeps every row's file present too. */
  lemma ProjectUploadKeepsLinked(files: set<string>, banners: map<nat, Banner>, projects: map<nat, Project>,
                                 next: nat, name: string, project: Option<string>, year: Option<string>,
                                 insertOk: bool, insertId: nat, rollbackOk: bool,
                                 files': set<string>, projects': map<nat, Project>, next': nat, reply: Reply)
    requires Linked(files, banners, projects) && name !in files && '/' !in name
    requires ProjectHandled(files + {name}, projects, next, name, project, year, insertOk, insertId, rollbackOk,
                            files', projects', next', reply)
    ensures Linked(files', banners, projects')
  {
    UrlNameRoundTrip(name);
  }

  /** What DELETE /banners/:id does: a failed lookup answers 500 and an
      unknown id 404, both changing nothing. Otherwise the file named by the
      last segment of the row's URL is removed when the unlink works (a
      failure is only logged), and then the row is deleted (200) or, when
      that query fails, kept (500). */
  ghost predicate BannerDeleted(files: set<string>, rows: map<nat, Banner>, id: nat,
                                lookupOk: bool, unlinkOk: bool, deleteOk: bool,
                                files': set<string>, rows': map<nat, Banner>, reply: Reply)
  {
    if !lookupOk then
      reply == DatabaseError && files' == files && rows' == rows
    else if id !in rows then
      reply == Respond(404, ErrorBody(BannerNotFoundMessage)) && files' == files && rows' == rows
    else
      && files' == (if unlinkOk then files - {FileNameOf(rows[id].fileUrl)} else files)
      && if deleteOk then reply == Respond(200, MessageBody(BannerDeletedMessage)) && rows' == rows - {id}
         else reply == DatabaseError && rows' == rows
  }

  /** What DELETE /projects/:id does: the same steps on the projects table. */
  ghost predicate ProjectDeleted(files: set<string>, rows: map<nat, Project>, id: nat,
                                 lookupOk: bool, unlinkOk: bool, deleteOk: bool,
                                 files': set<string>, rows': map<nat, Project>, reply: Reply)
  {
    if !lookupOk then
      reply == DatabaseError && files' == files && rows' == rows
    else if id !in rows then
      reply == Respond(404, ErrorBody(ProjectNotFoundMessage)) && files' == files && rows' == rows
    else
      && files' == (if unlinkOk then files - {FileNameOf(rows[id].fileUrl)} else files)
      && if deleteOk then reply == Respond(200, MessageBody(ProjectDeletedMessage)) && rows' == rows - {id}
         else reply == DatabaseError && rows' == rows
  }

  /** When no other row derives the same file name, a banner delete keeps
      every row's file present in every outcome but one: the unlink worked
      and the row delete failed, leaving the row with its file gone. */
  lemma BannerDeleteKeepsLinked(files: set<string>, banners: map<nat, Banner>, projects: map<nat, Project>,
                                id: nat, lookupOk: bool, unlinkOk: bool, deleteOk: bool,
                                files': set<string>, banners': map<nat, Banner>, reply: Reply)
    requires Linked(files, banners, projects)
    requires id in banners ==> OnlyBannerNames(banners, projects, id, FileNameOf(banners[id].fileUrl))
    requires BannerDeleted(files, banners, id, lookupOk, unlinkOk, deleteOk, files', banners', reply)
    ensures Linked(files', banners', projects) <==> !(lookupOk && id in banners && unlinkOk && !deleteOk)
  {
    if lookupOk && id in banners && unlinkOk && !deleteOk {
      assert FileNameOf(banners'[id].fileUrl) !in files';
    }
  }

  /** The same for a project delete. */
  lemma ProjectDeleteKeepsLinked(files: set<string>, banners: map<nat, Banner>, projects: map<nat, Project>,
                                 id: nat, lookupOk: bool, unlinkOk: bool, deleteOk: bool,
                                 files': set<string>, projects': map<nat, Project>, reply: Reply)
    requires Linked(files, banners, projects)
    requires id in projects ==> OnlyProjectNames(banners, projects, id, FileNameOf(projects[id].fileUrl))
    requires ProjectDeleted(files, projects, id, lookupOk, unlinkOk, deleteOk, files', projects', reply)
    ensures Linked(files', banners, projects') <==> !(lookupOk && id in projects && unlinkOk && !deleteOk)
  {
    if lookupOk && id in projects && unlinkOk && !deleteOk {
      assert FileNameOf(projects'[id].fileUrl) !in files';
    }
  }

  class Server {
    /** Names of the files in the uploads directory. */
    var files: set<string>
    /** The `banners` table, id to row. */
    var banners: map<nat, Banner>
    /** The `projects` table, id to row. */
    var projects: map<nat, Project>
    /** The autoincrement counter of each table: every id in use is below
        it, and the database gives an inserted row an id at or above it. */
    var nextBannerId: nat
    var nextProjectId: nat

    /** Ids start at 1 and every id in use is below the next one handed out. */
    ghost predicate Valid()
      reads this
    {
      && 1 <= nextBannerId && 1 <= nextProjectId
      && (forall id :: id in banners ==> 1 <= id < nextBannerId)
      && (forall id :: id in projects ==> 1 <= id < nextProjectId)
    }

    constructor ()
      ensures Valid() && Linked(files, banners, projects)
      ensures files == {} && banners == map[] && projects == map[]
      ensures nextBannerId == 1 && nextProjectId == 1
    {
      files := {};
      banners := map[];
      projects := map[];
      nextBannerId := 1;
      nextProjectId := 1;
    }

    /** The upload middleware shared by both upload routes: no part passes
        through, a rejected type or a failed write becomes an error, and an
        accepted part is written under `<now>_<originalname>`. */
    method ReceiveFile(part: Option<FilePart>, now: nat, writeOk: bool)
      returns (r: Result<Option<string>, MiddlewareError>)
      modifies this`files
      ensures part.None? ==> r == Ok(None) && files == old(files)
      ensures part.Some? && !MimeAllowed(part.value.mimeType) ==>
                r == Err(FilterRejected(FilterMessage)) && files == old(files)
      ensures part.Some? && MimeAllowed(part.value.mimeType) && !writeOk ==>
                r == Err(StorageFailed) && files == old(files)
      ensures Written(part, writeOk) ==>
                var name := StoredName(now, part.value.originalName);
                r == Ok(Some(name)) && files == old(files) + {name}
    {
      if part.None? {
        return Ok(None);
      }
      var rejected := FileFilter(part.value.mimeType);
      if rejected.Some? {
        return Err(rejected.value);
      }
      if !writeOk {
        return Err(StorageFailed);
      }
      var name := StoredName(now, part.value.originalName);
      files := files + {name};
      r := Ok(Some(name));
    }

    /** POST /upload: the middleware, then the route handler. */
    method UploadBanner(part: Option<FilePart>, now: nat, writeOk: bool, insertOk: bool, insertId: nat, rollbackOk: bool)
      returns (reply: Reply)
      requires Valid() && (insertOk ==> insertId >= nextBannerId)
      modifies this`files, this`banners, this`nextBannerId
      ensures Valid()
      ensures part.None? ==>
                reply == Respond(400, ErrorBody(NoFileMessage))
                && files == old(files) && banners == old(banners) && nextBannerId == old(nextBannerId)
      ensures part.Some? && !Written(part, writeOk) ==>
                reply == Respond(500, ErrorBody(InternalErrorMessage))
                && files == old(files) && banners == old(banners) && nextBannerId == old(nextBannerId)
      ensures Written(part, writeOk) ==>
                var name := StoredName(now, part.value.originalName);
                BannerHandled(old(files) + {name}, old(banners), old(nextBannerId), name,
                              insertOk, insertId, rollbackOk, files, banners, nextBannerId, reply)
    {
      var received := ReceiveFile(part, now, writeOk);
      if received.Err? {
        return ErrorReply(received.error);
      }
      reply := HandleBannerUpload(received.value, insertOk, insertId, rollbackOk);
    }

    /** The handler of POST /upload, given the name of the file the
        middleware wrote, if any. */
    method HandleBannerUpload(file: Option<string>, insertOk: bool, insertId: nat, rollbackOk: bool)
      returns (reply: Reply)
      requires Valid() && (insertOk ==> insertId >= nextBannerId)
      modifies this`files, this`banners, this`nextBannerId
      ensures Valid()
      ensures file.None? ==>
                reply == Respond(400, ErrorBody(NoFileMessage))
                && files == old(files) && banners == old(banners) && nextBannerId == old(nextBannerId)
      ensures file.Some? ==>
                BannerHandled(old(files), old(banners), old(nextBannerId), file.value,
                              insertOk, insertId, rollbackOk, files, banners, nextBannerId, reply)
    {
      if file.None? {
        return Respond(400, ErrorBody(NoFileMessage));
      }
      var name := file.value;
      var url := FileUrl(name);
      if !insertOk {
        if !rollbackOk {
          return Uncaught;
        }
        files := files - {name};
        return DatabaseError;
      }
      banners := banners[insertId := Banner(url)];
      nextBannerId := insertId + 1;
      reply := Respond(201, BannerCreated(insertId, url));
    }

    /** POST /projects/upload: the middleware, then the route handler. A
        file the middleware already wrote is not removed when a text field is
        missing. */
    method UploadProject(part: Option<FilePart>, project: Option<string>, year: Option<string>,
                         now: nat, writeOk: bool, insertOk: bool, insertId: nat, rollbackOk: bool)
      returns (reply: Reply)
      requires Valid() && (insertOk ==> insertId >= nextProjectId)
      modifies this`files, this`projects, this`nextProjectId
      ensures Valid()
      ensures part.Some? && !Written(part, writeOk) ==>
                reply == Respond(500, ErrorBody(InternalErrorMessage))
                && files == old(files) && projects == old(projects) && nextProjectId == old(nextProjectId)
      ensures part.None? ==>
                reply == Respond(400, ErrorBody(MissingFieldsMessage))
                && files == old(files) && projects == old(projects) && nextProjectId == old(nextProjectId)
      ensures Written(part, writeOk) ==>
                var name := StoredName(now, part.value.originalName);
                ProjectHandled(old(files) + {name}, old(projects), old(nextProjectId), name,
                               project, year, insertOk, insertId, rollbackOk,
                               files, projects, nextProjectId, reply)
    {
      var received := ReceiveFile(part, now, writeOk);
      if received.Err? {
        return ErrorReply(received.error);
      }
      reply := HandleProjectUpload(received.value, project, year, insertOk, insertId, rollbackOk);
    }

    /** The handler of POST /projects/upload, given the name of the file the
        middleware wrote, if any. */
    method HandleProjectUpload(file: Option<string>, project: Option<string>, year: Option<string>,
                               insertOk: bool, insertId: nat, rollbackOk: bool)
      returns (reply: Reply)
      requires Valid() && (insertOk ==> insertId >= nextProjectId)
      modifies this`files, this`projects, this`nextProjectId
      ensures Valid()
      ensures file.None? ==>
                reply == Respond(400, ErrorBody(MissingFieldsMessage))
                && files == old(files) && projects == old(projects) && nextProjectId == old(nextProjectId)
      ensures file.Some? ==>
                ProjectHandled(old(files), old(projects), old(nextProjectId), file.value,
                               project, year, insertOk, insertId, rollbackOk,
                               files, projects, nextProjectId, reply)
    {
      if file.None? || !Present(project) || !Present(year) {
        return Respond(400, ErrorBody(MissingFieldsMessage));
      }
      var name := file.value;
      var url := FileUrl(name);
      if !insertOk {
        if !rollbackOk {
          return Uncaught;
        }
        files := files - {name};
        return DatabaseError;
      }
      projects := projects[insertId := Project(project.value, year.value, url)];
      nextProjectId := insertId + 1;
      reply := Respond(201, ProjectCreated(insertId, url, project.value, year.value));
    }

    /** DELETE /banners/:id: look the row up, unlink the file named by the
        last segment of its URL (a failed unlink is only logged), then delete
        the row. */
    method DeleteBanner(id: nat, lookupOk: bool, unlinkOk: bool, deleteOk: bool)
      returns (reply: Reply)
      requires Valid()
      modifies this`files, this`banners
      ensures Valid()
      ensures BannerDeleted(old(files), old(banners), id, lookupOk, unlinkOk, deleteOk, files, banners, reply)
    {
      if !lookupOk {
        return DatabaseError;
      }
      if id !in banners {
        return Respond(404, ErrorBody(BannerNotFoundMessage));
      }
      var name := FileNameOf(banners[id].fileUrl);
      if unlinkOk {
        files := files - {name};
      }
      if !deleteOk {
        return DatabaseError;
      }
      banners := banners - {id};
      reply := Respond(200, MessageBody(BannerDeletedMessage));
    }

    /** DELETE /projects/:id: the same steps on the `projects` table. */
    method DeleteProject(id: nat, lookupOk: bool, unlinkOk: bool, deleteOk: bool)
      returns (reply: Reply)
      requires Valid()
      modifies this`files, this`projects
      ensures Valid()
      ensures ProjectDeleted(old(files), old(projects), id, lookupOk, unlinkOk, deleteOk, files, projects, reply)
    {
      if !lookupOk {
        return DatabaseError;
      }
      if id !in projects {
        return Respond(404, ErrorBody(ProjectNotFoundMessage));
      }
      var name := FileNameOf(projects[id].fileUrl);
      if unlinkOk {
        files := files - {name};
      }
      if !deleteOk {
        return DatabaseError;
      }
      projects := projects - {id};
      reply := Respond(200, MessageBody(ProjectDeletedMessage));
    }
  }
}
