/**
 * `App`: the session state the page keeps for one image, and the handlers
 * that move it between idle, processing, success and error.
 *
 * The asynchronous parts arrive as separate events on a `Session`:
 * `HandleRemoveWatermark` starts a file read and returns the `Job` its
 * callbacks close over; the read then ends with `OnLoadEnd` (the read
 * succeeded, and the remote call answered or threw) or `OnError`.
 */
module App {
  import opened Wrappers
  import opened JsString
  import opened Types
  import GeminiService

  const ProcessingMessage := "Nuking artifacts and restoring background..."
  const ApiFailureMessage := "Failed to process image. Please try again or use a smaller image."
  const ReadErrorMessage := "Error reading file."
  const UnexpectedErrorMessage := "An unexpected error occurred."
  const ErrorMessages := {ApiFailureMessage, ReadErrorMessage, UnexpectedErrorMessage}

  /** The data-URI prefix the result is displayed with. */
  const ResultUrlPrefix := "data:image/png;base64,"

  // ---------------------------------------------------------------------------
  // Data URIs

  /**
   * `dataUrl.split(',')[1]`: the text after the first comma, up to the next
   * comma if there is one; `undefined` exactly when there is no comma at all.
   */
  function DataUriPayload(dataUrl: string): (r: Option<string>)
    ensures r.Some? <==> ',' in dataUrl
    ensures r.Some? ==> ',' !in r.value
  {
    SplitSingleIffNoSeparator(dataUrl, ',');
    var pieces := Split(dataUrl, ',');
    if |pieces| > 1 then Some(pieces[1]) else None
  }

  /**
   * For "data:<media type>;base64,<payload>" whose payload has no comma, the
   * strip yields exactly the payload; a comma inside the payload would cut it.
   */
  lemma DataUriPayloadOf(header: string, payload: string)
    requires ',' !in header
    ensures DataUriPayload(header + "," + payload) == Some(Split(payload, ',')[0])
    ensures ',' !in payload ==> DataUriPayload(header + "," + payload) == Some(payload)
  {
    SplitAtFirst(header, ',', payload);
    if ',' !in payload {
      SplitNoSeparator(payload, ',');
    }
  }

  /**
   * `` `data:image/png;base64,${resultBase64}` ``: a PNG data URI whose text
   * after the prefix is the result, unchanged.
   */
  function ResultUrl(resultBase64: string): (url: string)
    ensures StartsWith(url, ResultUrlPrefix)
    ensures url[|ResultUrlPrefix|..] == resultBase64
  {
    StartsWithConcat(ResultUrlPrefix, resultBase64);
    ResultUrlPrefix + resultBase64
  }

  /** Stripping the prefix of a result URL gives back the comma-free base64 result. */
  lemma ResultUrlRoundTrip(resultBase64: string)
    requires ',' !in resultBase64
    ensures DataUriPayload(ResultUrl(resultBase64)) == Some(resultBase64)
  {
    assert ResultUrlPrefix == "data:image/png;base64" + ",";
    DataUriPayloadOf("data:image/png;base64", resultBase64);
  }

  // ---------------------------------------------------------------------------
  // Session state

  /** A blob URL returned by `URL.createObjectURL`; the n-th one created carries id n. */
  datatype BlobUrl = BlobUrl(id: nat)

  /** The first n blob URLs created. */
  ghost function IssuedUrls(n: nat): set<BlobUrl> {
    set i | 0 <= i < n :: BlobUrl(i)
  }

  lemma IssuedUrlsGrow(n: nat)
    ensures IssuedUrls(n + 1) == IssuedUrls(n) + {BlobUrl(n)}
  {
    assert forall u :: u in IssuedUrls(n + 1) <==> u in IssuedUrls(n) + {BlobUrl(n)};
  }

  /** What the `FileReader` callbacks close over: the image and hint as they were when removal began. */
  datatype Job = Job(file: File, instructions: string)

  /**
   * The loading states the handlers produce: never "uploading"; a message
   * only with processing (the progress text) and with error (one of the three
   * error texts).
   */
  predicate IsHandlerState(ls: LoadingState) {
    match ls.status
    case Idle => ls.message.None?
    case Uploading => false
    case Processing => ls.message == Some(ProcessingMessage)
    case Success => ls.message.None?
    case Error => ls.message.Some? && ls.message.value in ErrorMessages
  }

  class Session {
    var originalImage: Option<File>
    var originalPreviewUrl: Option<BlobUrl>
    var processedImageUrl: Option<string>
    var loadingState: LoadingState
    var instructions: string

    /** How many blob URLs the page has created so far. */
    var urlsCreated: nat
    /** Blob URLs created and not yet revoked. */
    ghost var live: set<BlobUrl>
    /** Blob URLs revoked so far. */
    ghost var revoked: set<BlobUrl>

    /**
     * An image and its preview come and go together; the only live blob URL
     * is the current preview, and every other URL ever created has been
     * revoked; the status is one the handlers set; a success always has a
     * result, and a result is always a PNG data URI.
     */
    ghost predicate Valid()
      reads this
    {
      && (originalImage.Some? <==> originalPreviewUrl.Some?)
      && live == (if originalPreviewUrl.Some? then {originalPreviewUrl.value} else {})
      && live !! revoked
      && live + revoked == IssuedUrls(urlsCreated)
      && IsHandlerState(loadingState)
      && (loadingState.status == Success ==> processedImageUrl.Some?)
      && (processedImageUrl.Some? ==> StartsWith(processedImageUrl.value, ResultUrlPrefix))
    }

    /** The initial state: nothing selected, idle, no hint. */
    constructor ()
      ensures Valid()
      ensures originalImage == None && originalPreviewUrl == None && processedImageUrl == None
      ensures loadingState == LoadingState(Idle, None) && instructions == ""
      ensures urlsCreated == 0 && live == {} && revoked == {}
    {
      originalImage := None;
      originalPreviewUrl := None;
      processedImageUrl := None;
      loadingState := LoadingState(Idle, None);
      instructions := "";
      urlsCreated := 0;
      live := {};
      revoked := {};
    }

    /**
     * `handleImageSelect`: the file becomes the image with a new preview URL,
     * the previous preview (if any) is revoked, and the result, status and
     * hint are reset.
     */
    method HandleImageSelect(file: File)
      requires Valid()
      modifies this
      ensures Valid()
      ensures originalImage == Some(file)
      ensures originalPreviewUrl == Some(BlobUrl(old(urlsCreated))) && urlsCreated == old(urlsCreated) + 1
      ensures processedImageUrl == None && loadingState == LoadingState(Idle, None) && instructions == ""
      ensures live == {BlobUrl(old(urlsCreated))}
      ensures revoked == old(revoked) + old(live)
    {
      var url := BlobUrl(urlsCreated);
      IssuedUrlsGrow(urlsCreated);
      urlsCreated := urlsCreated + 1;
      originalImage := Some(file);
      originalPreviewUrl := Some(url);
      // the effect's cleanup for the previous preview URL
      revoked := revoked + live;
      live := {url};
      processedImageUrl := None;
      loadingState := LoadingState(Idle, None);
      instructions := "";
    }

    /** The hint input's `onChange`. */
    method EditInstructions(value: string)
      requires Valid()
      modifies this
      ensures Valid()
      ensures instructions == value
      ensures originalImage == old(originalImage) && originalPreviewUrl == old(originalPreviewUrl)
      ensures processedImageUrl == old(processedImageUrl) && loadingState == old(loadingState)
      ensures urlsCreated == old(urlsCreated) && live == old(live) && revoked == old(revoked)
    {
      instructions := value;
    }

    /**
     * `handleRemoveWatermark`, up to the point where it waits for the file
     * read. Without an image it does nothing. Otherwise the status becomes
     * processing and a read starts, whose callbacks close over the current
     * image and hint; `setupThrows` says whether starting the read threw, in
     * which case the status becomes the unexpected-error state and no read is
     * pending.
     */
    method HandleRemoveWatermark(setupThrows: bool) returns (job: Option<Job>)
      requires Valid()
      modifies this
      ensures Valid()
      ensures old(originalImage).None? ==> job == None && loadingState == old(loadingState)
      ensures old(originalImage).Some? && !setupThrows ==>
        job == Some(Job(old(originalImage).value, old(instructions))) &&
        loadingState == LoadingState(Processing, Some(ProcessingMessage))
      ensures old(originalImage).Some? && setupThrows ==>
        job == None && loadingState == LoadingState(Error, Some(UnexpectedErrorMessage))
      ensures originalImage == old(originalImage) && originalPreviewUrl == old(originalPreviewUrl)
      ensures processedImageUrl == old(processedImageUrl) && instructions == old(instructions)
      ensures urlsCreated == old(urlsCreated) && live == old(live) && revoked == old(revoked)
    {
      if originalImage.None? {
        return None;
      }
      loadingState := LoadingState(Processing, Some(ProcessingMessage));
      if setupThrows {
        loadingState := LoadingState(Error, Some(UnexpectedErrorMessage));
        return None;
      }
      job := Some(Job(originalImage.value, instructions));
    }

    /**
     * `reader.onloadend` after a successful read of `dataUrl`: the payload is
     * stripped of its data-URI prefix and sent, with the job's media type and
     * hint, to the service; `reply` is what the remote call did. On success
     * the result is shown as a PNG data URI; any failure becomes the generic
     * retry message. Nothing checks whether the session was reset meanwhile.
     */
    method OnLoadEnd(job: Job, dataUrl: string, reply: GeminiService.Reply)
      returns (request: GeminiService.Request)
      requires Valid()
      modifies this
      ensures Valid()
      ensures request == GeminiService.BuildRequest(DataUriPayload(dataUrl), job.file.mimeType, Some(job.instructions))
      ensures var outcome := if reply.Failed? then Err(GeminiService.RemoteFailure(reply.reason))
                             else GeminiService.ImageFromResponse(reply.response);
        && (outcome.Ok? ==>
              processedImageUrl == Some(ResultUrl(outcome.value)) && loadingState == LoadingState(Success, None))
        && (outcome.Err? ==>
              processedImageUrl == old(processedImageUrl) && loadingState == LoadingState(Error, Some(ApiFailureMessage)))
      ensures originalImage == old(originalImage) && originalPreviewUrl == old(originalPreviewUrl)
      ensures instructions == old(instructions)
      ensures urlsCreated == old(urlsCreated) && live == old(live) && revoked == old(revoked)
    {
      var base64Data := DataUriPayload(dataUrl);
      var mimeType := job.file.mimeType;
      var result;
      request, result := GeminiService.RemoveWatermarkFromImage(base64Data, mimeType, Some(job.instructions), reply);
      if result.Ok? {
        processedImageUrl := Some(ResultUrl(result.value));
        loadingState := LoadingState(Success, None);
      } else {
        loadingState := LoadingState(Error, Some(ApiFailureMessage));
      }
    }

    /**
     * `reader.onerror`: the read of `job` failed. The handler sets the same
     * state whichever read it was, so the job only names the pending read.
     */
    method OnError(job: Job)
      requires Valid()
      modifies this
      ensures Valid()
      ensures loadingState == LoadingState(Error, Some(ReadErrorMessage))
      ensures originalImage == old(originalImage) && originalPreviewUrl == old(originalPreviewUrl)
      ensures processedImageUrl == old(processedImageUrl) && instructions == old(instructions)
      ensures urlsCreated == old(urlsCreated) && live == old(live) && revoked == old(revoked)
    {
      loadingState := LoadingState(Error, Some(ReadErrorMessage));
    }

    /** `handleReset`: everything cleared, the preview revoked, back to idle. */
    method HandleReset()
      requires Valid()
      modifies this
      ensures Valid()
      ensures originalImage == None && originalPreviewUrl == None && processedImageUrl == None
      ensures loadingState == LoadingState(Idle, None) && instructions == ""
      ensures live == {} && revoked == old(revoked) + old(live)
      ensures urlsCreated == old(urlsCreated)
    {
      originalImage := None;
      originalPreviewUrl := None;
      processedImageUrl := None;
      loadingState := LoadingState(Idle, None);
      instructions := "";
      // the effect's cleanup for the previous preview URL
      revoked := revoked + live;
      live := {};
    }
  }
}
