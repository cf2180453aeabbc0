# xkcd comic to VK wall publisher: a Dafny model

The program picks a random xkcd comic and posts its image, with the comic's
`alt` caption, on a VK community wall. It works in four parts:

- it asks for the latest issue number;
- it fetches a random issue's record;
- it downloads the image under a file name taken from the image URL;
- it runs a four-call VK protocol: getWallUploadServer, upload,
  saveWallPhoto, wall.post.

The downloaded file is removed in a `finally` once publishing has started.

The model is functional. Every remote call is an abstract `Reply`: a
transport failure, or a delivered body that has already been decoded. The
whole run is one pure function, `Workflow.Main`, over mocked replies. It
returns:

- the outcome, `Published(postId)` or the exception raised;
- the side-effect calls, in the order they were made;
- the lines printed;
- whether a file exists at the image path afterwards.

Modules:

- `Text`: decimal rendering of integers as an f-string writes them, a
  reference parser for it, and splitting at a separator.
- `PercentCoding`: percent-decoding and percent-encoding (section 2.1 of
  RFC 3986; section 2.3 for unreserved characters).
- `FileName`: `get_file_name`.
- `Comic`: the random issue bound and the per-issue metadata URL.
- `VkApi`: the VK requests and bodies, the attachment reference
  `photo<owner_id>_<id>`, the wall owner `-<group_id>`, and the printed
  API-error text.
- `Remote`: replies, stages, failures, outcomes.
- `Publish`: `send_image_to_vk_group` and the four helper functions it calls.
- `Workflow`: `main`.

Each identifier builder has an inverse parser and a round-trip lemma.
Decoding undoes `PercentCoding.Quote`: `Unquote(Quote(s)) == s` for every
octet string. The pipeline lemmas relate the calls made to the replies
received.

## Behaviour worth noting

- API errors are not raised. `raise_vk_error_exception` raises an
  `HTTPError` and catches it at once, so the error is only printed and the
  step returns its body. A realistic rejection body (an `error` object and
  no payload) still stops the run, but later, at the caller's key lookup,
  as a `KeyError` (`MissingKey`).
- The save step looks up `["response"][0]` before any error check. The
  check then inspects that first record, never the body's own `error`
  object. A rejected save therefore fails with `MissingKey(Save)` and prints
  nothing.
- Cleanup does not happen on every path. A failure before or during the
  download never reaches the `finally`, so a file that already sat at the
  image path stays where it was.
- The write of the image can fail after its GET succeeded: for a name with
  a NUL character (from a `%00` escape), for a name longer than 255 bytes,
  and for the names `""`, `"."` and `".."`. The run then raises before the
  `try`, so nothing is published or removed.

## Model

| member | source | states |
|---|---|---|
| `PercentCoding.UnquoteQuote` | main.py:12 | Percent-decoding undoes percent-encoding: decoding the encoding of any octet string gives the string back |
| `PercentCoding.UnquoteWithoutPercent` | main.py:12 | A path without `%` decodes to itself |
| `PercentCoding.UnquoteConcat` | main.py:12 | An escape never spans a boundary followed by a non-hex character, so the two sides decode separately |
| `PercentCoding.StrayPercentKept` | main.py:12 | A `%` not followed by two hexadecimal digits is kept as it is, and decoding goes on with the next character |
| `PercentCoding.StrayPercentBetween` | main.py:12 | Such a stray `%` stays in place between the decoded texts on either side of it |
| `PercentCoding.EncodedSlashDecodes` | main.py:12 | `%2F` and `%2f` decode to `/` whatever text surrounds them |
| `FileName.BasenameIsLastSegment` | main.py:13 | The tail is a suffix of the path, holds no `/`, and is preceded by a `/` unless it is the whole path (the text after the last `/`) |
| `FileName.BasenameUnique` | main.py:13 | Any string with those three properties is the tail, so they pin the result down |
| `FileName.FileNameHasNoSlash` | main.py:10-15 | The derived file name never contains `/` |
| `FileName.FileNameEmptyIff` | main.py:10-15 | The file name is empty exactly when the decoded path is empty or ends with `/` |
| `FileName.FileNameOfLastSegment` | main.py:10-15 | Only the text after the last literal `/` of the URL path decides the file name |
| `FileName.EncodedSlashSeparates` | main.py:12-13 | Decoding comes before splitting, so an encoded `%2F` acts as a separator and drops everything before it |
| `FileName.DecodeOrderMatters` | main.py:12-13 | For `dir/x%2Fy` the source yields `y`, while splitting before decoding would yield `x/y`, a name that contains `/` |
| `FileName.EncodedSpaceInName` | main.py:10-15 | `dir/stem%20ext` yields `stem ext`; for example `/path/name%20file.png` yields `name file.png` |
| `FileName.EscapeInName` | main.py:10-15 | Any escape that does not decode to `/`, inside the last segment, becomes exactly one character of the name, between the plain text around it |
| `FileName.StrayPercentInName` | main.py:10-15 | A stray `%` in the last segment stays in the name: `dir/stem%ext` yields `stem%ext` when `ext` does not start with two hexadecimal digits |
| `FileName.PercentSignKeptInName` | main.py:10-15 | `/img/100%.png` yields `100%.png` |
| `FileName.EncodedNulInName` | main.py:10-15 | `dir/stem%00ext` yields `stem`, a NUL character, then `ext` |
| `Comic.PickIssue` | main.py:25-27 | An issue is chosen exactly when the latest number is at least 1, and then it lies in [1, latest] |
| `Workflow.ChooseIssue` | main.py:18-27 | The run goes on exactly when the latest-issue body arrived with a `num` of at least 1, and the issue then lies in [1, num]. A transport failure is `HttpError(Latest)`, a missing `num` is `MissingKey(Latest)`, and a `num` below 1 is the empty-range error of `randint`; none prints anything |
| `Workflow.ReadComic` | main.py:30-34 | The run goes on exactly when the issue's record arrived with both `img` and `alt`, and it continues with those two. A transport failure is `HttpError(Metadata)` and a missing `img` or `alt` is `MissingKey(Metadata)`; none prints anything |
| `Workflow.StoreImage` | main.py:37-44 | The image is stored exactly when its GET succeeded and the name holds no NUL, takes at most 255 bytes in UTF-8 and is not `""`, `"."` or `".."`. A transport failure is `HttpError(Image)`. After a delivered GET the write fails with the first that applies: a NUL (`ValueError`), more than 255 bytes (ENAMETOOLONG), then a directory name |
| `Workflow.ShortAsciiNameStored` | main.py:37-44 | A delivered image under a NUL-free ASCII name of at most 255 characters that is not a directory name is stored |
| `Workflow.EncodedNulRefused` | main.py:37-44 | A `%00` escape in the last segment of the image path, as in `/a%00b`, makes the write fail with the embedded-NUL error |
| `Comic.PickIssueCovers` | main.py:27 | Every issue in [1, latest] is the outcome of some random draw |
| `Comic.MetadataUrlRoundTrip` | main.py:202 | The metadata URL `https://xkcd.com/<n>/info.0.json` names issue n, and the number can be read back |
| `VkApi.AttachmentRoundTrip` | main.py:126 | `photo<owner_id>_<id>` parses back to exactly the owner id and photo id it was built from, negative owners included |
| `VkApi.WallOwnerIdNegates` | main.py:132 | For a decimal community id g, the wall owner `-<g>` denotes -g, the convention for community walls |
| `VkApi.ErrorMessageRoundTrip` | main.py:52-53 | The printed text `Exit with error code: C and error message: M` carries C and M unchanged |
| `VkApi.ReportApiErrorReadable` | main.py:47-58 | With no `error` object nothing is printed; with one, exactly one line is printed, and it carries that error's code and message |
| `Publish.SendFollowsProtocol` | main.py:146-186 | Requests follow the order getWallUploadServer, upload, save, post. The first is always made. A published run made all four, and a failure is raised by the last request made |
| `Publish.SendShortCircuits` | main.py:150-186 | A transport failure at call k means at most k+1 calls were made. When the last call made failed in transport, the run raises `HttpError` for that call's stage. An `HttpError` is raised only in that case |
| `Publish.SendPublishes` | main.py:150-186 | The run publishes exactly when all four replies were delivered with the keys their steps look up, and the first saved record holds a photo. The post id is then the one wall.post returned |
| `Publish.SendEndpoints` | main.py:61-143 | getWallUploadServer, saveWallPhoto and wall.post go to their method addresses. The upload goes to the address getWallUploadServer returned |
| `Publish.SendPassesResults` | main.py:150-185 | Each request consumes the previous reply: the upload goes to the returned upload URL, and save sends that upload's server, photo and hash. The post carries `photo<owner_id>_<id>` of the first saved record, `owner_id = -<group_id>`, `from_group = 1` and the caption unchanged |
| `Publish.ApiErrorsOnlyPrint` | main.py:47-58 | Taking every `error` object out of the replies changes neither the requests made nor the outcome, and leaves nothing printed |
| `Publish.ErrorOnlyPrinted` | main.py:70-75 | A step's result is the same with or without an `error` object in its reply, and without one it prints nothing. What it prints is exactly the report of its body's `error` object, and nothing after a transport failure (the getWallUploadServer, upload and wall.post steps share this shape) |
| `Publish.SavedErrorOnlyPrinted` | main.py:112-118 | The save step's result is the same with or without the `error` objects of its reply, and without them it prints nothing. What it prints is exactly the report of the first saved record's `error` object, and nothing when there is no such record |
| `Publish.ReceiveSaved` | main.py:112-118 | The save step raises `HttpError` on a transport failure, `KeyError` (`MissingKey`) when `response` is missing, `IndexError` (`NoSavedPhoto`) on an empty list, and `KeyError` when the first record has no `owner_id`/`id` (main.py:175), after printing that record's error report. Any failure belongs to the save stage |
| `Publish.SendPrints` | main.py:150-186 | The lines printed are those of the steps that ran, in protocol order, and of no other step |
| `Publish.EmptySaveListRaises` | main.py:112-116 | An empty saved-photo list fails the run: once the save request is made, the outcome is the `IndexError` of `["response"][0]` (`NoSavedPhoto`) |
| `Publish.RejectedUploadServerStops` | main.py:150-154 | An error-only getWallUploadServer body prints its error, then fails with `MissingKey`, and no further request is made |
| `Publish.RejectedSaveStopsSilently` | main.py:112-116 | An error-only saveWallPhoto body fails at the `response` lookup before the error check, so only the first two steps' errors are printed |
| `Workflow.DownloadOutcome` | main.py:193-211 | The download stores the image exactly when the issue choice, the record read and the image write all succeed. Otherwise it fails with the failure of the first step that stopped |
| `Workflow.DownloadInOrder` | main.py:201-211 | The three GETs run in order, the first failure stops the download, and the failing stage is the last call made |
| `Workflow.DownloadPassesResults` | main.py:201-211 | The metadata URL is that of the drawn issue `1 + draw % num`, which lies in [1, num], and the image is fetched from `img`. The stored name is the file name of `img`'s path, and the caption is `alt` |
| `Workflow.PublishAndRemoveInOrder` | main.py:213-218 | Inside the try/finally, the protocol's requests follow the downloads in order, and the calls recorded between the downloads and the removal are exactly the requests publishing made. The last call removes the file, and no file is left |
| `Workflow.PublishAndRemovePassesResults` | main.py:213-218 | The upload sends the stored file. The wall post carries the caption, the wall `-<group_id>` and `from_group` 1 |
| `Workflow.MainCleansUp` | main.py:193-218 | Publishing starts exactly when the download stored the image. Once publishing has started, the run ends by removing the file and none is left, whether publishing returned or raised. Otherwise the run raises the download's failure, prints nothing, removes nothing, and the file's presence is as before |
| `Workflow.MainReraises` | main.py:204-218 | Once publishing has started, the `finally` re-raises: the run ends with publishing's own outcome (the same failure or the same post id) and the lines it printed. The calls between the downloads and the removal are exactly publishing's requests, and the file removed is the one named after `img`'s path, the one written and uploaded |
| `Workflow.MainCallOrder` | main.py:193-218 | The calls follow the strict order latest, metadata, image, the four VK calls, removal, each at most once. A run that fails before publishing stops at the call that raised |
| `Workflow.MainFetchesChosenComic` | main.py:201-207 | The run fetches the metadata of the drawn issue `1 + draw % num`, which lies in [1, num], then the image at the record's `img` |
| `Workflow.MainPublishesCaption` | main.py:204-216 | When publishing starts, the upload sends the file named after `img`'s path. The wall post's message is `alt` unchanged, on wall `-<group_id>`, from the community |

## Left out

- `PercentCoding.Unquote` turns each decoded octet into the character with that code. This is Python's `unquote` with `encoding='latin-1'`. The source decodes the octets as UTF-8 and replaces invalid sequences, so the two differ only for escapes of octets 0x80 and above. ASCII escapes such as `%2F` and `%20` decode the same way in both.
- URL parsing by `urlparse` is not modelled. The image URL carries its path component as given (`Workflow.ImageUrl`).
- The head that `os.path.split` returns is discarded by the source, so only the tail is modelled.
- Real HTTP, JSON decoding and the internals of `raise_for_status` are replaced by the abstract `Reply` (transport failure or decoded body).
- JSON value types are fixed: `num`, `error_code`, `owner_id`, `id`, `server` and `post_id` are integers, and the other fields are strings.
- A missing `error_code` or `error_msg` inside an `error` object would raise an uncaught `KeyError`. This is not modelled: every `error` object carries both.
- The three keys `server`, `photo` and `hash` of the upload reply are present or absent together. Any of them missing is one `MissingKey(Upload)`.
- File contents, `os.getcwd` and `os.path.join` are not modelled. The file is identified by its name, with one flag for whether it exists. A write fails for a name that holds NUL, for a name over 255 bytes, and for the names `""`, `"."` and `".."`, which point at a directory. Some failures are not modelled: names that happen to be existing directories, a joined path over the system's path limit (the working directory is unknown), permission errors, and failures of `os.remove` or of reopening the file for the upload.
- `load_dotenv` and `os.environ` are replaced by the `Workflow.Settings` parameter. A missing variable is not modelled.
- Logging setup and the final log line (main.py:148, 187-190) are not modelled. The post id is kept in the `Published` outcome.
- True randomness is replaced by an arbitrary `draw`. The chosen issue is `1 + draw % num`, and every issue in range is reachable (`Comic.PickIssueCovers`). Uniformity is not stated.
- `print` output is modelled as the list of printed lines.
