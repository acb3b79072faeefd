/** The replies the service sends and the global error handler that turns a
    middleware error into a reply. */
module Responses {

  /** JSON bodies of the replies. */
  datatype Body =
    | ErrorBody(error: string)
    | MessageBody(message: string)
    | BannerCreated(id: nat, fileUrl: string)
    | ProjectCreated(id: nat, fileUrl: string, project: string, year: string)

  /** A reply with an HTTP status, or an exception thrown inside a database
      callback that leaves the request without any reply. */
  datatype Reply = Respond(status: nat, body: Body) | Uncaught

  /** Errors the upload middleware passes to the global error handler: an
      error raised by multer itself (a `MulterError`), the plain `Error` of
      the MIME filter, or a failure of the disk write. */
  datatype MiddlewareError =
    | MulterError(message: string)
    | FilterRejected(message: string)
    | StorageFailed

  const FilterMessage := "Only JPG, PNG, or WEBP files allowed"
  const InternalErrorMessage := "Internal server error"
  const DatabaseErrorMessage := "Database error"
  const NoFileMessage := "No file uploaded"
  const MissingFieldsMessage := "Missing file, project name, or year"
  const BannerNotFoundMessage := "Banner not found"
  const ProjectNotFoundMessage := "Project not found"
  const BannerDeletedMessage := "Banner deleted successfully"
  const ProjectDeletedMessage := "Project deleted successfully"

  /** The 500 reply every failed database query produces. */
  const DatabaseError := Respond(500, ErrorBody(DatabaseErrorMessage))

  /** The global error handler: only a `MulterError` becomes a 400 carrying
      its own message; every other error becomes a generic 500. */
  function ErrorReply(e: MiddlewareError): (r: Reply)
    ensures r.Respond?
    ensures r.status == 400 <==> e.MulterError?
    ensures e.MulterError? ==> r.body == ErrorBody(e.message)
    ensures !e.MulterError? ==> r == Respond(500, ErrorBody(InternalErrorMessage))
  {
    if e.MulterError? then Respond(400, ErrorBody(e.message))
    else Respond(500, ErrorBody(InternalErrorMessage))
  }
}
