/** `generateVideoFromImage` (services/geminiService.ts): check the API key, read the
    image, submit the job, poll until it is done, classify the finished operation and
    download the video. The vendor SDK, `fetch` and the file reader are an oracle: the
    replies they will give are inputs, and what the driver sends them is returned as a
    trace. */
module GeminiService {
  import opened Wrappers
  import opened FileUtils

  /** `operation.error` */
  datatype Status = Status(message: string)

  /** `operation.response.generatedVideos[i].video` */
  datatype Video = Video(uri: Option<string>)
  datatype GeneratedVideo = GeneratedVideo(video: Option<Video>)
  datatype GenerateVideosResponse = GenerateVideosResponse(generatedVideos: Option<seq<GeneratedVideo>>)

  /** One snapshot of the long-running generation job. */
  datatype Operation = Operation(
    name: string,
    done: bool,
    error: Option<Status>,
    response: Option<GenerateVideosResponse>)

  /** What an SDK call gives back: the next snapshot, or a thrown error's message. */
  type Reply = Result<Operation, string>

  /** The result of `fetch`: the response's `ok` flag and `statusText`, or a thrown error. */
  datatype HttpResponse = HttpResponse(ok: bool, statusText: string)

  /** Everything the outside world will answer, fixed in advance.
      `replies[0]` answers `generateVideos`; `replies[k]` answers the k-th
      `getVideosOperation`. `objectUrl` is what `URL.createObjectURL` returns for the
      downloaded blob. */
  datatype Environment = Environment(
    apiKey: Option<string>,
    fileRead: Option<string>,
    replies: seq<Reply>,
    download: Result<HttpResponse, string>,
    objectUrl: string)

  /** The `generateVideos` request body. */
  datatype GenerateRequest = GenerateRequest(
    model: string,
    prompt: string,
    imageBytes: string,
    mimeType: string,
    numberOfVideos: nat,
    aspectRatio: string)

  /** What the driver sent out: the submission, the operation passed to each status
      query in order, and the URL it fetched. */
  datatype Trace = Trace(request: Option<GenerateRequest>, queries: seq<Operation>, fetched: Option<string>)

  const Model := "veo-2.0-generate-001"
  const KeyNotSetMessage := "API_KEY environment variable is not set."
  const GenerationFailedPrefix := "Video generation failed: "
  const NoLinkMessage := "Video generation succeeded, but no download link was found."
  const DownloadFailedPrefix := "Failed to download video. Status: "
  const UnexpectedMessage := "An unexpected error occurred during video generation."

  /** `!apiKey`: unset or empty. */
  predicate KeyMissing(apiKey: Option<string>) {
    apiKey.None? || apiKey.value == ""
  }

  /** The loop stops on a reply that is done, or on one that threw. */
  predicate Settled(reply: Reply) {
    reply.Failure? || reply.value.done
  }

  /** The oracle eventually stops the loop; the source has no attempt cap. */
  predicate EventuallySettles(replies: seq<Reply>) {
    exists k :: 0 <= k < |replies| && Settled(replies[k])
  }

  /** The position of the first settled reply. */
  function FirstSettled(replies: seq<Reply>): (k: nat)
    requires EventuallySettles(replies)
    ensures k < |replies| && Settled(replies[k])
    ensures forall j :: 0 <= j < k ==> !Settled(replies[j])
    decreases |replies|
  {
    if Settled(replies[0]) then 0
    else
      var k :| 0 <= k < |replies| && Settled(replies[k]);
      assert Settled(replies[1..][k - 1]);
      1 + FirstSettled(replies[1..])
  }

  /** `operation.response?.generatedVideos?.[0]?.video?.uri`, kept only when truthy. */
  function DownloadLink(op: Operation): (link: Option<string>)
    ensures link.Some? ==> link.value != ""
    ensures link.Some? <==>
      && op.response.Some?
      && op.response.value.generatedVideos.Some?
      && |op.response.value.generatedVideos.value| > 0
      && op.response.value.generatedVideos.value[0].video.Some?
      && op.response.value.generatedVideos.value[0].video.value.uri.Some?
      && op.response.value.generatedVideos.value[0].video.value.uri.value != ""
    ensures link.Some? ==> link.value == op.response.value.generatedVideos.value[0].video.value.uri.value
  {
    match op.response
    case None => None
    case Some(response) =>
      match response.generatedVideos
      case None => None
      case Some(videos) =>
        if |videos| == 0 then None
        else
          match videos[0].video
          case None => None
          case Some(video) =>
            match video.uri
            case None => None
            case Some(uri) => if uri == "" then None else Some(uri)
  }

  /** The catch block: `error.message || "An unexpected error occurred ..."`. */
  function Rethrow(message: string): (m: string)
    ensures m != ""
    ensures message != "" ==> m == message
    ensures message == "" ==> m == UnexpectedMessage
  {
    if message != "" then message else UnexpectedMessage
  }

  /** Download URL: the link with the key appended as a query parameter. */
  function DownloadUrl(link: string, apiKey: string): (url: string)
    ensures |url| == |link| + 5 + |apiKey|
    ensures url[..|link|] == link && url[|link|..|link| + 5] == "&key=" && url[|link| + 5..] == apiKey
  {
    link + "&key=" + apiKey
  }

  /** The driver. It rejects a missing key before any request; otherwise every failure
      inside the `try` leaves through `Rethrow`. Polling queries exactly as many times as
      the position of the first settled reply, each time with the previous reply's
      operation, and the finished operation is classified in the order: thrown error,
      reported error, missing link, download failure, success. */
  method GenerateVideoFromImage(file: File, prompt: string, aspectRatio: string, env: Environment)
    returns (r: Result<string, string>, trace: Trace)
    requires EventuallySettles(env.replies)
    ensures r.Failure? ==> r.error != ""
    // the key check comes first, outside the try block
    ensures KeyMissing(env.apiKey) ==> r == Failure(KeyNotSetMessage) && trace == Trace(None, [], None)
    // the image could not be turned into base64: nothing is sent
    ensures !KeyMissing(env.apiKey) && FileToBase64(env.fileRead).Failure? ==>
              r == Failure(Rethrow(FileToBase64(env.fileRead).error)) && trace == Trace(None, [], None)
    // submission and polling
    ensures !KeyMissing(env.apiKey) && FileToBase64(env.fileRead).Success? ==>
              && trace.request == Some(GenerateRequest(Model, prompt, FileToBase64(env.fileRead).value,
                                                       file.mimeType, 1, aspectRatio))
              && |trace.queries| == FirstSettled(env.replies)
              && (forall j :: 0 <= j < |trace.queries| ==> env.replies[j] == Success(trace.queries[j]))
    // classification of the settled reply
    ensures !KeyMissing(env.apiKey) && FileToBase64(env.fileRead).Success? ==>
              var last := env.replies[FirstSettled(env.replies)];
              && (last.Failure? ==> r == Failure(Rethrow(last.error)) && trace.fetched.None?)
              && (last.Success? && last.value.error.Some? ==>
                    r == Failure(GenerationFailedPrefix + last.value.error.value.message) && trace.fetched.None?)
              && (last.Success? && last.value.error.None? && DownloadLink(last.value).None? ==>
                    r == Failure(NoLinkMessage) && trace.fetched.None?)
              && (last.Success? && last.value.error.None? && DownloadLink(last.value).Some? ==>
                    && trace.fetched == Some(DownloadUrl(DownloadLink(last.value).value, env.apiKey.value))
                    && r == match env.download
                            case Failure(message) => Failure(Rethrow(message))
                            case Success(response) =>
                              if response.ok then Success(env.objectUrl)
                              else Failure(DownloadFailedPrefix + response.statusText))
  {
    trace := Trace(None, [], None);
    if KeyMissing(env.apiKey) {
      return Failure(KeyNotSetMessage), trace;
    }
    var apiKey := env.apiKey.value;

    var base64Image := FileToBase64(env.fileRead);
    if base64Image.Failure? {
      return Failure(Rethrow(base64Image.error)), trace;
    }
    var request := GenerateRequest(Model, prompt, base64Image.value, file.mimeType, 1, aspectRatio);
    trace := trace.(request := Some(request));

    ghost var settledAt := FirstSettled(env.replies);
    var polls := 0;
    var reply := env.replies[0];
    while reply.Success? && !reply.value.done
      invariant polls <= settledAt
      invariant reply == env.replies[polls]
      invariant |trace.queries| == polls
      invariant forall j :: 0 <= j < polls ==> env.replies[j] == Success(trace.queries[j])
      invariant trace.request == Some(request) && trace.fetched.None?
      decreases settledAt - polls
    {
      trace := trace.(queries := trace.queries + [reply.value]);
      polls := polls + 1;
      reply := env.replies[polls];
    }

    if reply.Failure? {
      return Failure(Rethrow(reply.error)), trace;
    }
    var operation := reply.value;
    if operation.error.Some? {
      return Failure(Rethrow(GenerationFailedPrefix + operation.error.value.message)), trace;
    }
    var downloadLink := DownloadLink(operation);
    if downloadLink.None? {
      return Failure(Rethrow(NoLinkMessage)), trace;
    }
    var url := DownloadUrl(downloadLink.value, apiKey);
    trace := trace.(fetched := Some(url));
    match env.download
    case Failure(message) =>
      r := Failure(Rethrow(message));
    case Success(response) =>
      if !response.ok {
        r := Failure(Rethrow(DownloadFailedPrefix + response.statusText));
      } else {
        r := Success(env.objectUrl);
      }
  }
}
