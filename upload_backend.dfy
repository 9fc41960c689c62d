/** The upload-backend capability as the batch components see it. The
    backend's network exchange is not modelled: what one instance's URL
    resolution and upload call return is supplied as a `Response`. */
module UploadBackend {
  import opened Records

  /** Result of getUrlToSubmitTo: a destination, or an UploadException. */
  datatype UrlResult = Resolved(url: string) | UrlRejected(displayMessage: string)

  /** Result of uploadOneSubmission: returned normally (with the backend's
      optional custom message), a plain UploadException, or its subtype
      UploadAuthRequestedException, which names the challenging server. */
  datatype UploadResult =
    | Uploaded(customMessage: Option<string>)
    | UploadFailed(displayMessage: string)
    | AuthRequested(server: string, displayMessage: string)

  /** What the backend answers for one instance: first the URL resolution;
      the upload result is only consulted if an upload call is made. */
  datatype Response = Response(url: UrlResult, upload: UploadResult)

  /** Localised texts the components record: the default success string and
      the fixed spreadsheet-validation failure message. */
  datatype Texts = Texts(success: string, spreadsheetUploadedToGoogleDrive: string)

  /** The message recorded for an upload that returned normally. */
  function SuccessMessage(customMessage: Option<string>, texts: Texts): string {
    if customMessage.Some? then customMessage.value else texts.success
  }
}
