/** Client runs of the session, written against the contracts alone. */
module Scenarios {
  import opened Wrappers
  import opened Types
  import opened GeminiService
  import opened App

  /** A text part before the image part is skipped. */
  method ExtractionSkipsText() {
    var response := Response(Some([Candidate(Some(Content(Some([
      Part(Some("ok"), None),
      Part(None, Some(Blob(Some("image/png"), Some("AAAA"))))]))))]));
    var r := ExtractImage(response);
    assert FirstImageIndex(response.candidates.value[0].content.value.parts.value) == 1;
    assert r == Ok("AAAA");
  }

  /** Select, hint, remove, and the model answers with "Zm9v": the result is a PNG data URI of it. */
  method SuccessfulRemoval() {
    var session := new Session();
    var logo := File("logo.png", "image/png", 2 * 1024 * 1024);
    session.HandleImageSelect(logo);
    session.EditInstructions("remove bottom-right mark");
    var job := session.HandleRemoveWatermark(false);
    assert job == Some(Job(logo, "remove bottom-right mark"));
    assert session.loadingState.status == Processing;
    var response := Response(Some([Candidate(Some(Content(Some([
      Part(None, Some(Blob(Some("image/png"), Some("Zm9v"))))]))))]));
    assert FirstImageIndex(response.candidates.value[0].content.value.parts.value) == 0;
    assert ImageFromResponse(response) == Ok("Zm9v");
    var request := session.OnLoadEnd(job.value, "data:image/png;base64,iVBO", Responded(response));
    assert session.loadingState == LoadingState(Success, None);
    assert session.processedImageUrl == Some(ResultUrl("Zm9v"));
  }

  /** The remote call throws: the generic retry message is shown. */
  method FailedRemoval() {
    var session := new Session();
    session.HandleImageSelect(File("logo.png", "image/png", 100));
    var job := session.HandleRemoveWatermark(false);
    var request := session.OnLoadEnd(job.value, "data:image/png;base64,iVBO", Failed("network error"));
    assert session.loadingState == LoadingState(Error, Some(ApiFailureMessage));
  }

  /**
   * A reply that arrives after a reset is still applied: the session is back
   * to no image, yet holds a result URL and a success status.
   */
  method StaleReplyAfterReset() {
    var session := new Session();
    session.HandleImageSelect(File("logo.png", "image/png", 100));
    var job := session.HandleRemoveWatermark(false);
    session.HandleReset();
    assert session.live == {} && session.revoked == {BlobUrl(0)};
    var response := Response(Some([Candidate(Some(Content(Some([
      Part(None, Some(Blob(Some("image/png"), Some("Zm9v"))))]))))]));
    assert FirstImageIndex(response.candidates.value[0].content.value.parts.value) == 0;
    assert ImageFromResponse(response) == Ok("Zm9v");
    var request := session.OnLoadEnd(job.value, "data:image/png;base64,iVBO", Responded(response));
    assert session.originalImage == None;
    assert session.processedImageUrl == Some(ResultUrl("Zm9v"));
    assert session.loadingState.status == Success;
  }
}
