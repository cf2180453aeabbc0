/** The social network's API as the publisher sees it: the requests of the
    four-call protocol, the bodies they return, the identifiers built from
    them, and the report of an API error. */
module VkApi {
  import opened Text

  const UploadServerMethod := "https://api.vk.com/method/photos.getWallUploadServer"
  const SaveMethod := "https://api.vk.com/method/photos.saveWallPhoto"
  const PostMethod := "https://api.vk.com/method/wall.post"

  /** `from_group` of the wall post: publish on behalf of the community. */
  const PostFromGroup := 1

  /** Access token, API version and community id, sent with every call. */
  datatype Credentials = Credentials(token: string, version: string, groupId: string)

  /** The error object of a rejected call. */
  datatype ApiError = ApiError(code: int, message: string)

  /** A decoded body: the `error` object if there is one, and the payload the
      caller looks up (absent when one of its keys is missing). */
  datatype Body<+T> = Body(error: Option<ApiError>, payload: Option<T>)

  /** What the upload server answers: `server`, `photo` and `hash`. */
  datatype UploadTicket = UploadTicket(server: int, photo: string, hash: string)

  /** `owner_id` and `id` of a saved photo. */
  datatype PhotoRef = PhotoRef(ownerId: int, id: int)

  /** One record of the saved-photo list. */
  datatype SavedPhoto = SavedPhoto(error: Option<ApiError>, photo: Option<PhotoRef>)

  /** The body of photos.saveWallPhoto: its `error` object and the list
      under `response`. */
  datatype SaveBody = SaveBody(error: Option<ApiError>, photos: Option<seq<SavedPhoto>>)

  /** The parameters of each call of the protocol. */
  datatype Request =
    | GetWallUploadServer(accessToken: string, v: string, groupId: string)
    | UploadPhoto(uploadUrl: string, photoFile: string, accessToken: string, v: string, groupId: string)
    | SaveWallPhoto(accessToken: string, v: string, server: int, photo: string, hash: string, groupId: string)
    | WallPost(accessToken: string, v: string, attachments: string, ownerId: string, fromGroup: int, message: string)

  /** The address each request is posted to. */
  function Endpoint(r: Request): string {
    match r
    case GetWallUploadServer(_, _, _) => UploadServerMethod
    case UploadPhoto(url, _, _, _, _) => url
    case SaveWallPhoto(_, _, _, _, _, _) => SaveMethod
    case WallPost(_, _, _, _, _, _) => PostMethod
  }

  function UploadServerRequest(c: Credentials): Request {
    GetWallUploadServer(c.token, c.version, c.groupId)
  }

  function UploadRequest(c: Credentials, uploadUrl: string, imagePath: string): Request {
    UploadPhoto(uploadUrl, imagePath, c.token, c.version, c.groupId)
  }

  function SaveRequest(c: Credentials, t: UploadTicket): Request {
    SaveWallPhoto(c.token, c.version, t.server, t.photo, t.hash, c.groupId)
  }

  function PostRequest(c: Credentials, p: PhotoRef, caption: string): Request {
    WallPost(c.token, c.version, Attachment(p), WallOwnerId(c.groupId), PostFromGroup, caption)
  }

  /** The attachment reference `photo<owner_id>_<id>`. */
  function Attachment(p: PhotoRef): string {
    "photo" + IntToString(p.ownerId) + "_" + IntToString(p.id)
  }

  /** Reads an attachment reference back. */
  function ParseAttachment(s: string): Option<PhotoRef> {
    if |s| < 5 || s[..5] != "photo" then None
    else
      match SplitFirst(s[5..], '_')
      case None => None
      case Some((owner, id)) =>
        match (ParseInt(owner), ParseInt(id))
        case (Some(o), Some(i)) => Some(PhotoRef(o, i))
        case _ => None
  }

  /** The attachment reference names exactly the photo it was built from. */
  lemma AttachmentRoundTrip(p: PhotoRef)
    ensures ParseAttachment(Attachment(p)) == Some(p)
  {
    var o := IntToString(p.ownerId);
    var i := IntToString(p.id);
    var s := Attachment(p);
    assert s[..5] == "photo";
    assert s[5..] == o + "_" + i;
    IntToStringAvoids(p.ownerId, '_');
    SplitFirstOf(o, '_', i);
    IntRoundTrip(p.ownerId);
    IntRoundTrip(p.id);
  }

  /** The wall owner: a community wall is addressed by its negated id. */
  function WallOwnerId(groupId: string): string {
    "-" + groupId
  }

  /** For a community id written in decimal, the owner id denotes its
      negation. */
  lemma WallOwnerIdNegates(g: nat)
    ensures ParseInt(WallOwnerId(NatToString(g))) == Some(-(g as int))
  {
    assert WallOwnerId(NatToString(g))[1..] == NatToString(g);
    NatRoundTrip(g);
  }

  const ErrorHead := "Exit with error code: "
  const ErrorLink := "and error message: "

  /** The text printed for an API error. */
  function ErrorMessage(e: ApiError): string {
    ErrorHead + IntToString(e.code) + " " + ErrorLink + e.message
  }

  /** Reads the code and the message back out of a printed error. */
  function ParseErrorMessage(s: string): Option<ApiError> {
    if |s| < |ErrorHead| || s[..|ErrorHead|] != ErrorHead then None
    else
      match SplitFirst(s[|ErrorHead|..], ' ')
      case None => None
      case Some((code, rest)) =>
        if |rest| < |ErrorLink| || rest[..|ErrorLink|] != ErrorLink then None
        else
          match ParseInt(code)
          case None => None
          case Some(c) => Some(ApiError(c, rest[|ErrorLink|..]))
  }

  /** The printed text carries the error's code and message unchanged. */
  lemma ErrorMessageRoundTrip(e: ApiError)
    ensures ParseErrorMessage(ErrorMessage(e)) == Some(e)
  {
    var code := IntToString(e.code);
    var rest := ErrorLink + e.message;
    var s := ErrorMessage(e);
    assert s[..|ErrorHead|] == ErrorHead;
    assert s[|ErrorHead|..] == code + " " + rest;
    IntToStringAvoids(e.code, ' ');
    SplitFirstOf(code, ' ', rest);
    assert rest[..|ErrorLink|] == ErrorLink;
    assert rest[|ErrorLink|..] == e.message;
    IntRoundTrip(e.code);
  }

  /** `raise_vk_error_exception`: the HTTPError it raises is caught at once
      and printed, so the only effect is the printed line. */
  function ReportApiError(error: Option<ApiError>): seq<string> {
    match error
    case None => []
    case Some(e) => [ErrorMessage(e)]
  }

  /** Nothing is printed for a body without an `error` object; otherwise
      exactly one line, which carries that error's code and message. */
  lemma ReportApiErrorReadable(error: Option<ApiError>)
    ensures var printed := ReportApiError(error);
      && (error.None? ==> printed == [])
      && (error.Some? ==> |printed| == 1 && ParseErrorMessage(printed[0]) == error)
  {
    if error.Some? {
      ErrorMessageRoundTrip(error.value);
    }
  }
}
