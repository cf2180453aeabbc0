/** `main`: pick a comic, fetch its record, download the image under the
    name derived from its URL, publish it, and remove the downloaded file
    once publishing has started, whether publishing returned or raised. */
module Workflow {
  import opened Text
  import opened Remote
  import opened Comic
  import opened FileName
  import opened VkApi
  import opened Publish

  const ApiVersion := "5.131"

  /** The community id and the access token, read from the environment. */
  datatype Settings = Settings(groupId: string, token: string)

  /** The latest-issue record; `num` is absent when the key is missing. */
  datatype LatestBody = LatestBody(num: Option<int>)

  /** The image address together with the path component `urlparse`
      extracts from it. */
  datatype ImageUrl = ImageUrl(url: string, path: string)

  /** The chosen issue's record: `img` and `alt`. */
  datatype ComicBody = ComicBody(img: Option<ImageUrl>, alt: Option<string>)

  /** The replies to the three GET requests; the image bytes themselves are
      not modelled. */
  datatype ComicReplies = ComicReplies(
    latest: Reply<LatestBody>,
    metadata: Reply<ComicBody>,
    image: Reply<()>)

  /** A side effect of the run. */
  datatype Call =
    | HttpGet(stage: Stage, url: string)
    | Vk(request: Request)
    | RemoveFile(path: string)

  /** How the run ended, its side effects in order, the printed lines, and
      whether a file exists at the image's path afterwards. */
  datatype Run = Run(outcome: Outcome, calls: seq<Call>, printed: seq<string>, fileExists: bool)

  /** `get_random_comic_number`: the issue drawn from the latest issue's
      number. */
  function ChooseIssue(reply: Reply<LatestBody>, draw: nat): (r: Step<int>)
    ensures r.Continue? <==> reply.Delivered? && reply.body.num.Some? && reply.body.num.value >= 1
    ensures r.Continue? ==> 1 <= r.value <= reply.body.num.value
    ensures r.Stop? ==> FailedStage(r.failure) == Latest && r.printed == []
    ensures reply.TransportFailure? ==> r == Stop(HttpError(Latest), [])
    ensures reply.Delivered? && reply.body.num.None? ==> r == Stop(MissingKey(Latest), [])
    ensures reply.Delivered? && reply.body.num.Some? && reply.body.num.value < 1 ==> r == Stop(EmptyRange, [])
  {
    match reply
    case TransportFailure => Stop(HttpError(Latest), [])
    case Delivered(body) =>
      match body.num
      case None => Stop(MissingKey(Latest), [])
      case Some(num) =>
        match PickIssue(num, draw)
        case None => Stop(EmptyRange, [])
        case Some(issue) => Continue(issue, [])
  }

  /** `get_image_metadata` and the lookups of `img` and `alt`. */
  function ReadComic(reply: Reply<ComicBody>): (r: Step<(ImageUrl, string)>)
    ensures r.Continue? <==> reply.Delivered? && reply.body.img.Some? && reply.body.alt.Some?
    ensures r.Continue? ==> r.value == (reply.body.img.value, reply.body.alt.value)
    ensures r.Stop? ==> FailedStage(r.failure) == Metadata && r.printed == []
    ensures reply.TransportFailure? ==> r == Stop(HttpError(Metadata), [])
    ensures reply.Delivered? && (reply.body.img.None? || reply.body.alt.None?) ==> r == Stop(MissingKey(Metadata), [])
  {
    match reply
    case TransportFailure => Stop(HttpError(Metadata), [])
    case Delivered(body) =>
      if body.img.None? || body.alt.None? then Stop(MissingKey(Metadata), [])
      else Continue((body.img.value, body.alt.value), [])
  }

  /** Names under which `open(path, "wb")` meets the directory itself or its
      parent instead of a file. */
  predicate IsDirectoryName(name: string) {
    name == "" || name == "." || name == ".."
  }

  /** The longest file name the file system accepts, in bytes. */
  const NameMax := 255

  /** Why `open(path, "wb")` refuses the name, if it does: an embedded NUL
      is rejected before the system call, then a name longer than `NameMax`
      bytes once encoded, then a name that denotes a directory. */
  function WriteError(name: string): Option<Failure> {
    if 0 as char in name then Some(NullInName)
    else if Utf8Length(name) > NameMax then Some(NameTooLong)
    else if IsDirectoryName(name) then Some(NotAFile)
    else None
  }

  /** `download_image`: the GET, then the write of the bytes to `name`. */
  function StoreImage(reply: Reply<()>, name: string): (r: Option<Failure>)
    ensures r.None? <==>
      && reply.Delivered?
      && 0 as char !in name
      && Utf8Length(name) <= NameMax
      && !IsDirectoryName(name)
    ensures r.Some? ==> FailedStage(r.value) == Image
    ensures reply.TransportFailure? ==> r == Some(HttpError(Image))
    ensures r == Some(NullInName) <==> reply.Delivered? && 0 as char in name
    ensures r == Some(NameTooLong) <==>
      reply.Delivered? && 0 as char !in name && Utf8Length(name) > NameMax
    ensures r == Some(NotAFile) <==>
      reply.Delivered? && 0 as char !in name && Utf8Length(name) <= NameMax && IsDirectoryName(name)
  {
    match reply
    case TransportFailure => Some(HttpError(Image))
    case Delivered(_) => WriteError(name)
  }

  /** A `%00` escape in the image's last path segment makes the write fail
      after the GET, for instance for the path `/a%00b`. */
  lemma EncodedNulRefused(dir: string, stem: string, ext: string)
    requires '%' !in stem && '/' !in stem
    requires '%' !in ext && '/' !in ext
    ensures StoreImage(Delivered(()), GetFileName(dir + "/" + stem + "%00" + ext)) == Some(NullInName)
  {
    EncodedNulInName(dir, stem, ext);
    assert (stem + [0 as char] + ext)[|stem|] == 0 as char;
  }

  /** A plain ASCII name of at most `NameMax` characters, without NUL and
      other than `""`, `"."` and `".."`, is written. */
  lemma ShortAsciiNameStored(name: string)
    requires forall i :: 0 <= i < |name| ==> 0 < (name[i] as int) < 0x80
    requires |name| <= NameMax && !IsDirectoryName(name)
    ensures StoreImage(Delivered(()), name) == None
  {
    AsciiUtf8Length(name);
  }

  function VkCalls(requests: seq<Request>): (calls: seq<Call>)
    ensures |calls| == |requests|
    ensures forall k :: 0 <= k < |requests| ==> calls[k] == Vk(requests[k])
  {
    seq(|requests|, k requires 0 <= k < |requests| => Vk(requests[k]))
  }

  /** Everything before the `try`: the three GET requests made, and either
      the failure that ended the run or the stored file's name and the
      caption. */
  datatype Download =
    | Failed(failure: Failure, calls: seq<Call>)
    | Stored(calls: seq<Call>, name: string, caption: string)

  /** The part of `main` up to and including `download_image`. */
  function DownloadComic(draw: nat, comic: ComicReplies): Download {
    var getLatest := HttpGet(Latest, LatestUrl);
    match ChooseIssue(comic.latest, draw)
    case Stop(f, _) => Failed(f, [getLatest])
    case Continue(issue, _) =>
      var getMetadata := HttpGet(Metadata, MetadataUrl(issue));
      match ReadComic(comic.metadata)
      case Stop(f, _) => Failed(f, [getLatest, getMetadata])
      case Continue((img, caption), _) =>
        var name := GetFileName(img.path);
        var fetched := [getLatest, getMetadata, HttpGet(Image, img.url)];
        match StoreImage(comic.image, name)
        case Some(f) => Failed(f, fetched)
        case None => Stored(fetched, name, caption)
  }

  /** The `try`/`finally` of `main`: publish, then remove the file whether
      publishing returned or raised. */
  function PublishAndRemove(s: Settings, fetched: seq<Call>, name: string, caption: string, vk: VkReplies): Run {
    var t := Send(Credentials(s.token, ApiVersion, s.groupId), caption, name, vk);
    Run(t.outcome, fetched + VkCalls(t.requests) + [RemoveFile(name)], t.printed, false)
  }

  /** The run. `draw` stands for the random source and `existedBefore` for
      whether a file already sits at the image's path. */
  function Main(s: Settings, draw: nat, comic: ComicReplies, vk: VkReplies, existedBefore: bool): Run {
    match DownloadComic(draw, comic)
    case Failed(f, calls) => Run(Raised(f), calls, [], existedBefore)
    case Stored(calls, name, caption) => PublishAndRemove(s, calls, name, caption, vk)
  }

  /** True when some request of the publishing protocol was made. */
  predicate PublishingStarted(r: Run) {
    exists k :: 0 <= k < |r.calls| && r.calls[k].Vk?
  }

  /** The place of a call in the run's fixed order. */
  function CallRank(c: Call): nat {
    match c
    case HttpGet(stage, _) => StageIndex(stage)
    case Vk(request) => StageIndex(RequestStage(request))
    case RemoveFile(_) => 7
  }

  /** The download makes its GET requests in order and stops at the first
      that fails; when it succeeds all three were made. */
  lemma DownloadInOrder(draw: nat, comic: ComicReplies)
    ensures var d := DownloadComic(draw, comic);
      && 1 <= |d.calls| <= 3
      && (forall k :: 0 <= k < |d.calls| ==> d.calls[k].HttpGet? && CallRank(d.calls[k]) == k)
      && (d.Stored? ==> |d.calls| == 3)
      && (d.Failed? ==> StageIndex(FailedStage(d.failure)) == |d.calls| - 1)
  {
  }

  /** The download stores the image exactly when each of its three steps
      went through, and otherwise fails with the failure of the first step
      that stopped. */
  lemma DownloadOutcome(draw: nat, comic: ComicReplies)
    ensures var d := DownloadComic(draw, comic);
      var pick := ChooseIssue(comic.latest, draw);
      var read := ReadComic(comic.metadata);
      && (d.Stored? <==>
            && pick.Continue? && read.Continue?
            && StoreImage(comic.image, GetFileName(comic.metadata.body.img.value.path)).None?)
      && (d.Failed? && pick.Stop? ==> d.failure == pick.failure)
      && (d.Failed? && pick.Continue? && read.Stop? ==> d.failure == read.failure)
      && (d.Failed? && pick.Continue? && read.Continue? ==>
            StoreImage(comic.image, GetFileName(comic.metadata.body.img.value.path)) == Some(d.failure))
  {
  }

  /** The publishing part makes the protocol's requests in order after the
      downloads and ends with the removal of the file. */
  lemma PublishAndRemoveInOrder(s: Settings, fetched: seq<Call>, name: string, caption: string, vk: VkReplies)
    requires |fetched| == 3
    ensures var r := PublishAndRemove(s, fetched, name, caption, vk);
      && 5 <= |r.calls| <= 8
      && r.calls[..3] == fetched
      && r.calls[3..|r.calls| - 1]
           == VkCalls(Send(Credentials(s.token, ApiVersion, s.groupId), caption, name, vk).requests)
      && (forall k :: 3 <= k < |r.calls| - 1 ==> r.calls[k].Vk? && CallRank(r.calls[k]) == k)
      && r.calls[|r.calls| - 1] == RemoveFile(name)
      && !r.fileExists
  {
    var c := Credentials(s.token, ApiVersion, s.groupId);
    SendFollowsProtocol(c, caption, name, vk);
    CallsInOrder(fetched, Send(c, caption, name, vk).requests, name);
  }

  /** The calls of the `try`/`finally` for requests made in the protocol's
      order. */
  lemma CallsInOrder(fetched: seq<Call>, requests: seq<Request>, name: string)
    requires |fetched| == 3
    requires 1 <= |requests| <= |Protocol|
    requires forall k :: 0 <= k < |requests| ==> RequestStage(requests[k]) == Protocol[k]
    ensures var calls := fetched + VkCalls(requests) + [RemoveFile(name)];
      && 5 <= |calls| <= 8
      && calls[..3] == fetched
      && calls[3..|calls| - 1] == VkCalls(requests)
      && (forall k :: 3 <= k < |calls| - 1 ==> calls[k].Vk? && CallRank(calls[k]) == k)
      && calls[|calls| - 1] == RemoveFile(name)
  {
    var calls := fetched + VkCalls(requests) + [RemoveFile(name)];
    forall k | 3 <= k < |calls| - 1
      ensures calls[k].Vk? && CallRank(calls[k]) == k
    {
      assert calls[k] == Vk(requests[k - 3]);
      assert RequestStage(requests[k - 3]) == Protocol[k - 3];
    }
    assert calls[..3] == fetched;
    assert calls[3..|calls| - 1] == VkCalls(requests);
  }

  /** Cleanup: once publishing has started, the run ends with the removal of
      the downloaded file and no file is left, whatever publishing did. When
      the run fails before or while downloading, it raises the download's
      failure, prints nothing, removes nothing and leaves the file system as
      it was. */
  lemma MainCleansUp(s: Settings, draw: nat, comic: ComicReplies, vk: VkReplies, existedBefore: bool)
    ensures var r := Main(s, draw, comic, vk, existedBefore);
      var d := DownloadComic(draw, comic);
      && (PublishingStarted(r) <==> d.Stored?)
      && (PublishingStarted(r) ==>
            && !r.fileExists
            && r.calls[|r.calls| - 1].RemoveFile?
            && forall k :: 0 <= k < |r.calls| - 1 ==> !r.calls[k].RemoveFile?)
      && (!PublishingStarted(r) ==>
            && r.outcome == Raised(d.failure)
            && r.printed == []
            && r.fileExists == existedBefore
            && forall k :: 0 <= k < |r.calls| ==> !r.calls[k].RemoveFile?)
  {
    DownloadInOrder(draw, comic);
    match DownloadComic(draw, comic)
    case Failed(_, _) =>
    case Stored(calls, name, caption) =>
      PublishAndRemoveInOrder(s, calls, name, caption, vk);
      assert Main(s, draw, comic, vk, existedBefore).calls[3].Vk?;
  }

  /** Calls happen in the fixed order latest issue, metadata, image,
      getWallUploadServer, upload, saveWallPhoto, wall.post, removal, each at
      most once, and a run that raises before publishing stops at the call
      that raised. */
  lemma MainCallOrder(s: Settings, draw: nat, comic: ComicReplies, vk: VkReplies, existedBefore: bool)
    ensures var r := Main(s, draw, comic, vk, existedBefore);
      && 1 <= |r.calls| <= 8
      && (forall k :: 0 <= k < |r.calls| && !r.calls[k].RemoveFile? ==> CallRank(r.calls[k]) == k)
      && (forall i, j :: 0 <= i < j < |r.calls| ==> CallRank(r.calls[i]) < CallRank(r.calls[j]))
      && (r.outcome.Raised? && !PublishingStarted(r) ==>
            StageIndex(FailedStage(r.outcome.failure)) == |r.calls| - 1)
  {
    var r := Main(s, draw, comic, vk, existedBefore);
    MainCleansUp(s, draw, comic, vk, existedBefore);
    MainCallPositions(s, draw, comic, vk, existedBefore);
    RanksIncrease(r.calls);
  }

  lemma MainCallPositions(s: Settings, draw: nat, comic: ComicReplies, vk: VkReplies, existedBefore: bool)
    ensures var r := Main(s, draw, comic, vk, existedBefore);
      && 1 <= |r.calls| <= 8
      && (forall k :: 0 <= k < |r.calls| && !r.calls[k].RemoveFile? ==> CallRank(r.calls[k]) == k)
      && (r.outcome.Raised? && !PublishingStarted(r) ==>
            StageIndex(FailedStage(r.outcome.failure)) == |r.calls| - 1)
  {
    DownloadInOrder(draw, comic);
    match DownloadComic(draw, comic)
    case Failed(_, _) =>
    case Stored(calls, name, caption) =>
      PublishAndRemoveInOrder(s, calls, name, caption, vk);
      var r := Main(s, draw, comic, vk, existedBefore);
      assert r.calls[3].Vk?;
      forall k | 0 <= k < 3
        ensures r.calls[k] == calls[k]
      {
        assert r.calls[..3][k] == r.calls[k];
      }
  }

  /** Calls at their own positions, with the removal only at the end, come
      in strictly increasing order. */
  lemma RanksIncrease(calls: seq<Call>)
    requires |calls| <= 8
    requires forall k :: 0 <= k < |calls| && !calls[k].RemoveFile? ==> CallRank(calls[k]) == k
    requires forall k :: 0 <= k < |calls| - 1 ==> !calls[k].RemoveFile?
    ensures forall i, j :: 0 <= i < j < |calls| ==> CallRank(calls[i]) < CallRank(calls[j])
  {
  }

  /** The download fetches the address of the drawn issue `1 + draw % num`,
      which lies between 1 and the latest issue's number, then the record's
      `img`; the stored name is derived
      from that address's path and the caption is the record's `alt`. */
  lemma DownloadPassesResults(draw: nat, comic: ComicReplies)
    ensures var d := DownloadComic(draw, comic);
      && d.calls[0] == HttpGet(Latest, LatestUrl)
      && (|d.calls| >= 2 ==>
            && comic.latest.Delivered? && comic.latest.body.num.Some?
            && comic.latest.body.num.value >= 1
            && d.calls[1] == HttpGet(Metadata, MetadataUrl(1 + draw % comic.latest.body.num.value))
            && var issue := IssueOfUrl(d.calls[1].url);
               issue.Some? && 1 <= issue.value <= comic.latest.body.num.value)
      && (|d.calls| >= 3 ==>
            && comic.metadata.Delivered?
            && comic.metadata.body.img.Some? && comic.metadata.body.alt.Some?
            && d.calls[2] == HttpGet(Image, comic.metadata.body.img.value.url))
      && (d.Stored? ==>
            && |d.calls| == 3
            && d.name == GetFileName(comic.metadata.body.img.value.path)
            && d.caption == comic.metadata.body.alt.value)
  {
    match ChooseIssue(comic.latest, draw)
    case Stop(_, _) =>
    case Continue(issue, _) =>
      MetadataUrlRoundTrip(issue);
  }

  /** Inside the `try`: the upload sends the stored file, and the wall post
      carries the caption unchanged, the wall `-<group_id>` and `from_group`
      1. */
  lemma PublishAndRemovePassesResults(s: Settings, fetched: seq<Call>, name: string, caption: string, vk: VkReplies)
    requires |fetched| == 3 && (forall i :: 0 <= i < 3 ==> !fetched[i].Vk?)
    ensures var r := PublishAndRemove(s, fetched, name, caption, vk);
      && r.calls[3] == Vk(GetWallUploadServer(s.token, ApiVersion, s.groupId))
      && (forall k :: 0 <= k < |r.calls| && r.calls[k].Vk? && r.calls[k].request.UploadPhoto? ==>
            r.calls[k].request.photoFile == name)
      && (forall k :: 0 <= k < |r.calls| && r.calls[k].Vk? && r.calls[k].request.WallPost? ==>
            && r.calls[k].request.message == caption
            && r.calls[k].request.ownerId == "-" + s.groupId
            && r.calls[k].request.fromGroup == 1)
  {
    var c := Credentials(s.token, ApiVersion, s.groupId);
    var t := Send(c, caption, name, vk);
    SendFollowsProtocol(c, caption, name, vk);
    SendPassesResults(c, caption, name, vk);
    CallsOfRequests(fetched, t.requests, name, c, caption);
  }

  /** The calls of the `try`/`finally` as seen from the requests alone. */
  lemma CallsOfRequests(fetched: seq<Call>, requests: seq<Request>, name: string, c: Credentials, caption: string)
    requires |fetched| == 3 && (forall i :: 0 <= i < 3 ==> !fetched[i].Vk?)
    requires 1 <= |requests| <= |Protocol|
    requires forall k :: 0 <= k < |requests| ==> RequestStage(requests[k]) == Protocol[k]
    requires requests[0] == GetWallUploadServer(c.token, c.version, c.groupId)
    requires |requests| >= 2 ==> requests[1].UploadPhoto? && requests[1].photoFile == name
    requires |requests| == 4 ==>
      && requests[3].WallPost?
      && requests[3].message == caption
      && requests[3].ownerId == "-" + c.groupId
      && requests[3].fromGroup == 1
    ensures var calls := fetched + VkCalls(requests) + [RemoveFile(name)];
      && calls[3] == Vk(GetWallUploadServer(c.token, c.version, c.groupId))
      && (forall k :: 0 <= k < |calls| && calls[k].Vk? && calls[k].request.UploadPhoto? ==>
            calls[k].request.photoFile == name)
      && (forall k :: 0 <= k < |calls| && calls[k].Vk? && calls[k].request.WallPost? ==>
            && calls[k].request.message == caption
            && calls[k].request.ownerId == "-" + c.groupId
            && calls[k].request.fromGroup == 1)
  {
    var calls := fetched + VkCalls(requests) + [RemoveFile(name)];
    forall k | 0 <= k < |calls| && calls[k].Vk?
      ensures 3 <= k < 3 + |requests| && calls[k].request == requests[k - 3]
    {
      VkCallAt(fetched, requests, name, k);
    }
  }

  lemma VkCallAt(fetched: seq<Call>, requests: seq<Request>, name: string, k: int)
    requires |fetched| == 3 && (forall i :: 0 <= i < 3 ==> !fetched[i].Vk?)
    requires 0 <= k < |fetched + VkCalls(requests) + [RemoveFile(name)]|
    requires (fetched + VkCalls(requests) + [RemoveFile(name)])[k].Vk?
    ensures 3 <= k < 3 + |requests|
    ensures (fetched + VkCalls(requests) + [RemoveFile(name)])[k] == Vk(requests[k - 3])
  {
  }

  /** The run fetches the address of the drawn issue `1 + draw % num`,
      between 1 and the latest issue's number, then the image at the
      record's `img`. */
  lemma MainFetchesChosenComic(s: Settings, draw: nat, comic: ComicReplies, vk: VkReplies, existedBefore: bool)
    ensures var r := Main(s, draw, comic, vk, existedBefore);
      && r.calls[0] == HttpGet(Latest, LatestUrl)
      && (|r.calls| >= 2 ==>
            && comic.latest.Delivered? && comic.latest.body.num.Some?
            && comic.latest.body.num.value >= 1
            && r.calls[1] == HttpGet(Metadata, MetadataUrl(1 + draw % comic.latest.body.num.value))
            && var issue := IssueOfUrl(r.calls[1].url);
               issue.Some? && 1 <= issue.value <= comic.latest.body.num.value)
      && (|r.calls| >= 3 ==>
            && comic.metadata.Delivered?
            && comic.metadata.body.img.Some? && comic.metadata.body.alt.Some?
            && r.calls[2] == HttpGet(Image, comic.metadata.body.img.value.url))
  {
    DownloadPassesResults(draw, comic);
    match DownloadComic(draw, comic)
    case Failed(_, _) =>
    case Stored(calls, name, caption) =>
      PublishAndRemoveInOrder(s, calls, name, caption, vk);
      var r := Main(s, draw, comic, vk, existedBefore);
      assert r.calls[..3] == calls;
      assert r.calls[0] == calls[0] && r.calls[1] == calls[1] && r.calls[2] == calls[2];
  }

  /** Publishing uploads the file named after the image's address and posts
      the record's `alt` unchanged, on the wall `-<group_id>`, from the
      community. */
  lemma MainPublishesCaption(s: Settings, draw: nat, comic: ComicReplies, vk: VkReplies, existedBefore: bool)
    ensures var r := Main(s, draw, comic, vk, existedBefore);
      PublishingStarted(r) ==>
        && comic.metadata.Delivered?
        && comic.metadata.body.img.Some? && comic.metadata.body.alt.Some?
        && (forall k :: 0 <= k < |r.calls| && r.calls[k].Vk? && r.calls[k].request.UploadPhoto? ==>
              r.calls[k].request.photoFile == GetFileName(comic.metadata.body.img.value.path))
        && (forall k :: 0 <= k < |r.calls| && r.calls[k].Vk? && r.calls[k].request.WallPost? ==>
              && r.calls[k].request.message == comic.metadata.body.alt.value
              && r.calls[k].request.ownerId == "-" + s.groupId
              && r.calls[k].request.fromGroup == 1)
  {
    DownloadPassesResults(draw, comic);
    DownloadInOrder(draw, comic);
    match DownloadComic(draw, comic)
    case Failed(_, calls) =>
      var r := Main(s, draw, comic, vk, existedBefore);
      assert r.calls == calls;
    case Stored(calls, name, caption) =>
      PublishAndRemovePassesResults(s, calls, name, caption, vk);
  }

  /** The `finally` re-raises: once publishing has started, the run ends as
      publishing ended, with the same failure or the same post id, and with
      the lines publishing printed. The calls between the downloads and the
      removal are exactly publishing's requests, and the file removed is the
      one named after the image's address. */
  lemma MainReraises(s: Settings, draw: nat, comic: ComicReplies, vk: VkReplies, existedBefore: bool)
    ensures var r := Main(s, draw, comic, vk, existedBefore);
      PublishingStarted(r) ==>
        && comic.metadata.Delivered?
        && comic.metadata.body.img.Some? && comic.metadata.body.alt.Some?
        && var t := Send(Credentials(s.token, ApiVersion, s.groupId), comic.metadata.body.alt.value,
                         GetFileName(comic.metadata.body.img.value.path), vk);
           && r.outcome == t.outcome && r.printed == t.printed
           && r.calls[3..|r.calls| - 1] == VkCalls(t.requests)
           && r.calls[|r.calls| - 1] == RemoveFile(GetFileName(comic.metadata.body.img.value.path))
  {
    DownloadPassesResults(draw, comic);
    DownloadInOrder(draw, comic);
    match DownloadComic(draw, comic)
    case Failed(_, calls) =>
      var r := Main(s, draw, comic, vk, existedBefore);
      assert r.calls == calls;
    case Stored(calls, name, caption) =>
      PublishAndRemoveInOrder(s, calls, name, caption, vk);
  }
}
