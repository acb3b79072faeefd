/** Sequences of requests: what follows from the workflow contracts for an
    upload followed by a delete, and two concrete request sequences applied
    to a fresh `Server` in the model. */
module Scenarios {

  import opened Wrappers
  import opened Naming
  import opened Responses
  import opened Uploads

  /** A successful banner upload of the written file `name`, which the
      database stored under `id`, followed by a successful delete of that
      row restores the table, and of the
      files it removes the one named by the last segment of the URL. */
  lemma BannerUploadThenDelete(files: set<string>, banners: map<nat, Banner>, next: nat, name: string,
                               files1: set<string>, banners1: map<nat, Banner>, next1: nat, id: nat, created: Reply,
                               files2: set<string>, banners2: map<nat, Banner>, deleted: Reply)
    requires BannerHandled(files, banners, next, name, true, id, true, files1, banners1, next1, created)
    requires BannerDeleted(files1, banners1, id, true, true, true, files2, banners2, deleted)
    ensures created == Respond(201, BannerCreated(id, FileUrl(name)))
    ensures deleted == Respond(200, MessageBody(BannerDeletedMessage))
    ensures files2 == files - {FileNameOf(FileUrl(name))}
    ensures banners2 == banners
  {
    assert banners1[id].fileUrl == FileUrl(name);
    assert banners2 == banners[id := Banner(FileUrl(name))] - {id};
  }

  /** For an upload whose original name has no `/`, that round trip removes
      exactly the stored file. */
  lemma BannerUploadThenDeleteRemovesFile(files: set<string>, banners: map<nat, Banner>, next: nat,
                                          now: nat, originalName: string,
                                          files1: set<string>, banners1: map<nat, Banner>, next1: nat, id: nat, created: Reply,
                                          files2: set<string>, banners2: map<nat, Banner>, deleted: Reply)
    requires '/' !in originalName
    requires BannerHandled(files + {StoredName(now, originalName)}, banners, next, StoredName(now, originalName),
                           true, id, true, files1, banners1, next1, created)
    requires BannerDeleted(files1, banners1, id, true, true, true, files2, banners2, deleted)
    ensures files2 == files - {StoredName(now, originalName)}
    ensures banners2 == banners
  {
    var name := StoredName(now, originalName);
    BannerUploadThenDelete(files + {name}, banners, next, name, files1, banners1, next1, id, created,
                           files2, banners2, deleted);
    StoredUrlRoundTrip(now, originalName);
    assert files2 == (files + {name}) - {name};
  }

  /** When the original name holds a `/`, the delete unlinks the tail of the
      original name instead: the table is restored but the stored file stays
      behind with no row referring to it. */
  lemma BannerOrphanedBySlashName(files: set<string>, banners: map<nat, Banner>, next: nat,
                                  now: nat, originalName: string,
                                  files1: set<string>, banners1: map<nat, Banner>, next1: nat, id: nat, created: Reply,
                                  files2: set<string>, banners2: map<nat, Banner>, deleted: Reply)
    requires '/' in originalName
    requires BannerHandled(files + {StoredName(now, originalName)}, banners, next, StoredName(now, originalName),
                           true, id, true, files1, banners1, next1, created)
    requires BannerDeleted(files1, banners1, id, true, true, true, files2, banners2, deleted)
    ensures StoredName(now, originalName) in files2
    ensures files2 == (files + {StoredName(now, originalName)}) - {FileNameOf(originalName)}
    ensures banners2 == banners
  {
    var name := StoredName(now, originalName);
    BannerUploadThenDelete(files + {name}, banners, next, name, files1, banners1, next1, id, created,
                           files2, banners2, deleted);
    SlashNameUnlinksTail(now, originalName);
  }

  /** A project upload of `x.png` with fields "Atrium" and "2024" on an empty
      service, stored by the database under `id`, answers with that id and
      appears in the table; after its delete it is gone, and a second delete
      of the same id answers 404. */
  method ProjectLifecycle(now: nat, id: nat)
    returns (created: Reply, listed: map<nat, Project>, deleted: Reply, remaining: map<nat, Project>, again: Reply)
    requires id >= 1
    ensures created == Respond(201, ProjectCreated(id, UploadsUrl + StoredName(now, "x.png"), "Atrium", "2024"))
    ensures listed == map[id := Project("Atrium", "2024", FileUrl(StoredName(now, "x.png")))]
    ensures deleted == Respond(200, MessageBody(ProjectDeletedMessage))
    ensures remaining == map[]
    ensures again == Respond(404, ErrorBody(ProjectNotFoundMessage))
  {
    var s := new Server();
    created := s.UploadProject(Some(FilePart("x.png", "image/png")), Some("Atrium"), Some("2024"),
                               now, true, true, id, true);
    assert Written(Some(FilePart("x.png", "image/png")), true);
    assert Present(Some("Atrium")) && Present(Some("2024"));
    listed := s.projects;
    deleted := s.DeleteProject(id, true, true, true);
    remaining := s.projects;
    again := s.DeleteProject(id, true, true, true);
  }

  /** A PDF banner is refused by the filter before anything is written; the
      reply is the generic 500 of the global handler. */
  method PdfBannerRefused(now: nat) returns (reply: Reply, files: set<string>, banners: map<nat, Banner>)
    ensures reply == Respond(500, ErrorBody(InternalErrorMessage))
    ensures files == {} && banners == map[]
  {
    var s := new Server();
    reply := s.UploadBanner(Some(FilePart("doc.pdf", "application/pdf")), now, true, true, 1, true);
    files, banners := s.files, s.banners;
  }
}
