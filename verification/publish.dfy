/** `send_image_to_vk_group`: the four calls of the publishing protocol, run
    over mocked replies. Each step consumes what the previous one returned;
    a step that raises ends the sequence. */
module Publish {
  import opened Text
  import opened Remote
  import opened VkApi

  /** The reply each of the four calls would get. */
  datatype VkReplies = VkReplies(
    uploadServer: Reply<Body<string>>,
    upload: Reply<Body<UploadTicket>>,
    save: Reply<SaveBody>,
    post: Reply<Body<int>>)

  /** How the sequence ended, the requests made in order, and the lines
      printed on the way. */
  datatype Trace = Trace(outcome: Outcome, requests: seq<Request>, printed: seq<string>)

  /** The stage each request belongs to. */
  function RequestStage(r: Request): Stage {
    match r
    case GetWallUploadServer(_, _, _) => UploadServer
    case UploadPhoto(_, _, _, _, _) => Upload
    case SaveWallPhoto(_, _, _, _, _, _) => Save
    case WallPost(_, _, _, _, _, _) => Post
  }

  /** The order the protocol prescribes. */
  const Protocol: seq<Stage> := [UploadServer, Upload, Save, Post]

  /** The common shape of the getWallUploadServer, upload and wall.post steps:
      `raise_for_status`, then `raise_vk_error_exception` (which only
      prints), then the caller's key lookup. */
  function Receive<T>(stage: Stage, reply: Reply<Body<T>>): Step<T> {
    match reply
    case TransportFailure => Stop(HttpError(stage), [])
    case Delivered(body) =>
      var printed := ReportApiError(body.error);
      match body.payload
      case None => Stop(MissingKey(stage), printed)
      case Some(v) => Continue(v, printed)
  }

  /** The saveWallPhoto step: `["response"][0]` is looked up before any error
      check, and the error check then looks at that first record, never at
      the body's own `error` object. */
  function ReceiveSaved(reply: Reply<SaveBody>): (r: Step<PhotoRef>)
    ensures r.Stop? ==> FailedStage(r.failure) == Save
    ensures reply.TransportFailure? ==> r == Stop(HttpError(Save), [])
    ensures reply.Delivered? && reply.body.photos.None? ==> r == Stop(MissingKey(Save), [])
    ensures reply.Delivered? && reply.body.photos == Some([]) ==> r == Stop(NoSavedPhoto, [])
    ensures reply.Delivered? && reply.body.photos.Some? && |reply.body.photos.value| > 0
            && reply.body.photos.value[0].photo.None? ==>
              r == Stop(MissingKey(Save), ReportApiError(reply.body.photos.value[0].error))
  {
    match reply
    case TransportFailure => Stop(HttpError(Save), [])
    case Delivered(body) =>
      match body.photos
      case None => Stop(MissingKey(Save), [])
      case Some(photos) =>
        if |photos| == 0 then Stop(NoSavedPhoto, [])
        else
          var printed := ReportApiError(photos[0].error);
          match photos[0].photo
          case None => Stop(MissingKey(Save), printed)
          case Some(p) => Continue(p, printed)
  }

  /** The whole publishing sequence for the image stored at `imagePath`. */
  function Send(c: Credentials, caption: string, imagePath: string, vk: VkReplies): Trace {
    var r1 := UploadServerRequest(c);
    match Receive(UploadServer, vk.uploadServer)
    case Stop(f, p1) => Trace(Raised(f), [r1], p1)
    case Continue(url, p1) =>
      var r2 := UploadRequest(c, url, imagePath);
      match Receive(Upload, vk.upload)
      case Stop(f, p2) => Trace(Raised(f), [r1, r2], p1 + p2)
      case Continue(ticket, p2) =>
        var r3 := SaveRequest(c, ticket);
        match ReceiveSaved(vk.save)
        case Stop(f, p3) => Trace(Raised(f), [r1, r2, r3], p1 + p2 + p3)
        case Continue(photo, p3) =>
          var r4 := PostRequest(c, photo, caption);
          match Receive(Post, vk.post)
          case Stop(f, p4) => Trace(Raised(f), [r1, r2, r3, r4], p1 + p2 + p3 + p4)
          case Continue(postId, p4) => Trace(Published(postId), [r1, r2, r3, r4], p1 + p2 + p3 + p4)
  }

  /** True when the reply to the k-th call (counting from 0) failed in
      transport. */
  predicate TransportFailed(vk: VkReplies, k: nat) {
    || (k == 0 && vk.uploadServer.TransportFailure?)
    || (k == 1 && vk.upload.TransportFailure?)
    || (k == 2 && vk.save.TransportFailure?)
    || (k == 3 && vk.post.TransportFailure?)
  }

  /** The calls are made in the protocol's order, at least the first one is
      always made, and a failure is raised by the last call made: nothing
      runs after the step that raised. */
  lemma SendFollowsProtocol(c: Credentials, caption: string, imagePath: string, vk: VkReplies)
    ensures var t := Send(c, caption, imagePath, vk);
      && 1 <= |t.requests| <= |Protocol|
      && (forall k :: 0 <= k < |t.requests| ==> RequestStage(t.requests[k]) == Protocol[k])
      && (t.outcome.Published? ==> |t.requests| == |Protocol|)
      && (t.outcome.Raised? ==> FailedStage(t.outcome.failure) == Protocol[|t.requests| - 1])
  {
  }

  /** A transport failure ends the sequence at that call, and a transport
      failure is reported only for the last call made. */
  lemma SendShortCircuits(c: Credentials, caption: string, imagePath: string, vk: VkReplies)
    ensures var t := Send(c, caption, imagePath, vk);
      && (forall k: nat :: k < 4 && TransportFailed(vk, k) ==> |t.requests| <= k + 1)
      && (t.outcome.Raised? && t.outcome.failure.HttpError? ==>
            && 1 <= |t.requests|
            && TransportFailed(vk, |t.requests| - 1)
            && t.outcome.failure.stage == Protocol[|t.requests| - 1])
      && (TransportFailed(vk, |t.requests| - 1) ==>
            t.outcome == Raised(HttpError(Protocol[|t.requests| - 1])))
  {
    SendFollowsProtocol(c, caption, imagePath, vk);
  }

  /** The run publishes exactly when every reply was delivered with the keys
      its step looks up and the saved list has a photo in its first record;
      the post id is then the one wall.post returned. */
  lemma SendPublishes(c: Credentials, caption: string, imagePath: string, vk: VkReplies)
    ensures var t := Send(c, caption, imagePath, vk);
      && (t.outcome.Published? <==>
            && vk.uploadServer.Delivered? && vk.uploadServer.body.payload.Some?
            && vk.upload.Delivered? && vk.upload.body.payload.Some?
            && vk.save.Delivered? && vk.save.body.photos.Some?
            && |vk.save.body.photos.value| > 0 && vk.save.body.photos.value[0].photo.Some?
            && vk.post.Delivered? && vk.post.body.payload.Some?)
      && (t.outcome.Published? ==> t.outcome.postId == vk.post.body.payload.value)
  {
  }

  /** Each request carries what the previous reply delivered: the upload goes
      to the returned upload URL, the save sends the upload's server, photo
      and hash, and the wall post attaches `photo<owner_id>_<id>` of the first
      saved photo, to the wall `-<group_id>`, from the community, with the
      caption unchanged. */
  lemma SendPassesResults(c: Credentials, caption: string, imagePath: string, vk: VkReplies)
    ensures var t := Send(c, caption, imagePath, vk);
      && t.requests[0] == GetWallUploadServer(c.token, c.version, c.groupId)
      && (|t.requests| >= 2 ==>
            && vk.uploadServer.Delivered? && vk.uploadServer.body.payload.Some?
            && t.requests[1] == UploadPhoto(vk.uploadServer.body.payload.value, imagePath, c.token, c.version, c.groupId))
      && (|t.requests| >= 3 ==>
            && vk.upload.Delivered? && vk.upload.body.payload.Some?
            && var u := vk.upload.body.payload.value;
               t.requests[2] == SaveWallPhoto(c.token, c.version, u.server, u.photo, u.hash, c.groupId))
      && (|t.requests| == 4 ==>
            && vk.save.Delivered? && vk.save.body.photos.Some? && |vk.save.body.photos.value| > 0
            && vk.save.body.photos.value[0].photo.Some?
            && var p := vk.save.body.photos.value[0].photo.value;
               t.requests[3] == WallPost(c.token, c.version,
                                         "photo" + IntToString(p.ownerId) + "_" + IntToString(p.id),
                                         "-" + c.groupId, 1, caption))
  {
    SendFollowsProtocol(c, caption, imagePath, vk);
  }

  /** Each request goes to its method's address, and the upload to the
      address getWallUploadServer returned. */
  lemma SendEndpoints(c: Credentials, caption: string, imagePath: string, vk: VkReplies)
    ensures var t := Send(c, caption, imagePath, vk);
      && Endpoint(t.requests[0]) == UploadServerMethod
      && (|t.requests| >= 2 ==>
            && vk.uploadServer.Delivered? && vk.uploadServer.body.payload.Some?
            && Endpoint(t.requests[1]) == vk.uploadServer.body.payload.value)
      && (|t.requests| >= 3 ==> Endpoint(t.requests[2]) == SaveMethod)
      && (|t.requests| == 4 ==> Endpoint(t.requests[3]) == PostMethod)
  {
    SendFollowsProtocol(c, caption, imagePath, vk);
    SendPassesResults(c, caption, imagePath, vk);
  }

  /** The same replies with every `error` object taken out. */
  function WithoutErrors(vk: VkReplies): VkReplies {
    VkReplies(StripError(vk.uploadServer), StripError(vk.upload), StripSaveErrors(vk.save), StripError(vk.post))
  }

  function StripError<T>(reply: Reply<Body<T>>): Reply<Body<T>> {
    match reply
    case TransportFailure => TransportFailure
    case Delivered(b) => Delivered(Body(None, b.payload))
  }

  function StripSaveErrors(reply: Reply<SaveBody>): Reply<SaveBody> {
    match reply
    case TransportFailure => TransportFailure
    case Delivered(b) =>
      Delivered(SaveBody(None,
        match b.photos
        case None => None
        case Some(ps) => Some(seq(|ps|, i requires 0 <= i < |ps| => SavedPhoto(None, ps[i].photo)))))
  }

  /** API errors are swallowed: an `error` object in a reply changes nothing
      but the printed lines. The requests made and the outcome are those of
      the same replies without any `error` object, which print nothing. */
  lemma ApiErrorsOnlyPrint(c: Credentials, caption: string, imagePath: string, vk: VkReplies)
    ensures var t := Send(c, caption, imagePath, vk);
      var u := Send(c, caption, imagePath, WithoutErrors(vk));
      && t.requests == u.requests
      && t.outcome == u.outcome
      && u.printed == []
  {
    ErrorOnlyPrinted(UploadServer, vk.uploadServer);
    ErrorOnlyPrinted(Upload, vk.upload);
    SavedErrorOnlyPrinted(vk.save);
    ErrorOnlyPrinted(Post, vk.post);
  }

  /** Two steps that continue with the same value or stop with the same
      failure, the second printing nothing. */
  predicate SameButSilent<T(==)>(a: Step<T>, b: Step<T>) {
    && b.printed == []
    && (match a
        case Continue(v, _) => b.Continue? && b.value == v
        case Stop(f, _) => b.Stop? && b.failure == f)
  }

  /** A step prints the `error` object of its body, if there is one, and
      otherwise behaves as it would without it. */
  lemma ErrorOnlyPrinted<T>(stage: Stage, reply: Reply<Body<T>>)
    ensures SameButSilent(Receive(stage, reply), Receive(stage, StripError(reply)))
    ensures Receive(stage, reply).printed
         == (if reply.Delivered? then ReportApiError(reply.body.error) else [])
  {
  }

  /** The save step prints the `error` object of the first saved record, if
      the list has one, and otherwise behaves as it would without it. */
  lemma SavedErrorOnlyPrinted(reply: Reply<SaveBody>)
    ensures SameButSilent(ReceiveSaved(reply), ReceiveSaved(StripSaveErrors(reply)))
    ensures ReceiveSaved(reply).printed
         == (if reply.Delivered? && reply.body.photos.Some? && |reply.body.photos.value| > 0
             then ReportApiError(reply.body.photos.value[0].error)
             else [])
  {
  }

  /** The printed lines are those of the steps that ran, in order. */
  lemma SendPrints(c: Credentials, caption: string, imagePath: string, vk: VkReplies)
    ensures var t := Send(c, caption, imagePath, vk);
      t.printed
        == Receive(UploadServer, vk.uploadServer).printed
         + (if |t.requests| >= 2 then Receive(Upload, vk.upload).printed else [])
         + (if |t.requests| >= 3 then ReceiveSaved(vk.save).printed else [])
         + (if |t.requests| == 4 then Receive(Post, vk.post).printed else [])
  {
    SendFollowsProtocol(c, caption, imagePath, vk);
  }

  /** An empty saved-photo list is the `IndexError` of `["response"][0]`
      once the save call is made. */
  lemma EmptySaveListRaises(c: Credentials, caption: string, imagePath: string, vk: VkReplies, e: Option<ApiError>)
    requires vk.save == Delivered(SaveBody(e, Some([])))
    ensures var t := Send(c, caption, imagePath, vk);
      && t.outcome.Raised?
      && |t.requests| <= 3
      && (|t.requests| == 3 ==> t.outcome == Raised(NoSavedPhoto))
  {
    SendFollowsProtocol(c, caption, imagePath, vk);
  }

  /** A realistic rejection (an `error` object and no payload) still ends the
      sequence: getWallUploadServer prints the error and then fails on the
      missing `response` key. */
  lemma RejectedUploadServerStops(c: Credentials, caption: string, imagePath: string, vk: VkReplies, e: ApiError)
    requires vk.uploadServer == Delivered(Body(Some(e), None))
    ensures Send(c, caption, imagePath, vk)
         == Trace(Raised(MissingKey(UploadServer)), [GetWallUploadServer(c.token, c.version, c.groupId)], [ErrorMessage(e)])
  {
  }

  /** A rejected saveWallPhoto fails on the missing `response` key before any
      error check, so its error is not printed: the printed lines are those
      of the first two steps only. */
  lemma RejectedSaveStopsSilently(c: Credentials, caption: string, imagePath: string, vk: VkReplies, e: ApiError)
    requires vk.save == Delivered(SaveBody(Some(e), None))
    ensures var t := Send(c, caption, imagePath, vk);
      && t.outcome.Raised?
      && |t.requests| <= 3
      && (|t.requests| == 3 ==>
            && t.outcome.failure == MissingKey(Save)
            && vk.uploadServer.Delivered? && vk.upload.Delivered?
            && t.printed == ReportApiError(vk.uploadServer.body.error) + ReportApiError(vk.upload.body.error))
  {
  }
}
