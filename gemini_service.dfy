/**
 * `removeWatermarkFromImage`: composing the editing directive, shaping the
 * request sent to the image model, and extracting the edited image from the
 * model's response. The remote call itself is not modelled: its outcome is
 * handed in as a `Reply`.
 */
module GeminiService {
  import opened Wrappers
  import opened JsString

  const ModelName := "gemini-2.5-flash-image"

  /** The five sentences of the fixed directive, in the order they are appended. */
  const Intro := "You are a professional photo editor. Your sole task is to remove the watermark from this image. "
  const IdentifyStep := "1. Identify the watermark: Look for semi-transparent logos, copyright text, URL addresses, or branding stamps. These are often in the corners (especially the bottom-right) or repeated patterns. "
  const RemoveStep := "2. Remove the watermark: Erase only these branding elements. "
  const PreserveStep := "3. PRESERVE CONTENT: Do NOT remove standard text, captions, speech bubbles, street signs, or any text that is part of the subject matter. Only remove the foreign branding layer. "
  const InpaintStep := "4. Inpaint: Fill the erased area to seamlessly match the background texture."

  const BaseDirective := Intro + IdentifyStep + RemoveStep + PreserveStep + InpaintStep

  /** Heads the user's hint when there is one. */
  const RequirementHeader := "\n\nSpecific user requirement: "

  /** Always the last sentence of the prompt. */
  const Closing := "\n\nReturn only the processed image."

  const NoImageDataMessage := "No image data received from the model."

  // ---------------------------------------------------------------------------
  // Prompt composition

  /**
   * `instructions && instructions.trim().length > 0`: the hint is present, is
   * not the (falsy) empty string, and is not all whitespace. That is, the hint
   * counts exactly when it holds a character other than whitespace.
   */
  predicate HasHint(instructions: Option<string>)
    ensures HasHint(instructions) <==>
      instructions.Some? && exists i :: 0 <= i < |instructions.value| && !IsJsWhitespace(instructions.value[i])
  {
    if instructions.Some? then
      TrimEmptyIffBlank(instructions.value);
      instructions.value != [] && Trim(instructions.value) != []
    else false
  }

  /** The prompt the service sends for the given optional hint. */
  function ComposePrompt(instructions: Option<string>): (prompt: string)
    ensures StartsWith(prompt, BaseDirective)
    ensures EndsWith(prompt, Closing)
  {
    if HasHint(instructions) then
      EncloseLemma(BaseDirective, RequirementHeader + instructions.value, Closing);
      BaseDirective + (RequirementHeader + instructions.value) + Closing
    else
      EncloseLemma(BaseDirective, [], Closing);
      BaseDirective + Closing
  }

  /**
   * The prompt, built as the service builds it: the directive's sentences
   * one after another, the hint section when there is a hint, then the
   * closing sentence.
   */
  method BuildPrompt(instructions: Option<string>) returns (prompt: string)
    ensures prompt == ComposePrompt(instructions)
  {
    prompt := Intro;
    prompt := prompt + IdentifyStep;
    prompt := prompt + RemoveStep;
    prompt := prompt + PreserveStep;
    prompt := prompt + InpaintStep;
    if instructions.Some? && instructions.value != [] && |Trim(instructions.value)| > 0 {
      prompt := prompt + (RequirementHeader + instructions.value);
    }
    prompt := prompt + Closing;
  }

  /**
   * Reads the user's hint back out of a prompt: the text between the
   * requirement header and the closing sentence, if the prompt has that shape.
   */
  function RecoverHint(prompt: string): Option<string> {
    Between(prompt, BaseDirective + RequirementHeader, Closing)
  }

  /**
   * The prompt is exactly the directive plus the closing sentence when there
   * is no hint, and carries the hint verbatim (untrimmed) between the
   * requirement header and the closing sentence when there is one.
   */
  lemma PromptShape(instructions: Option<string>)
    ensures !HasHint(instructions) ==> ComposePrompt(instructions) == BaseDirective + Closing
    ensures HasHint(instructions) ==>
      ComposePrompt(instructions) == BaseDirective + (RequirementHeader + instructions.value) + Closing
  {
  }

  /** The hint section is never spliced into the directive: the hint can always be read back. */
  lemma RecoverHintOfPrompt(instructions: Option<string>)
    ensures RecoverHint(ComposePrompt(instructions)) ==
      if HasHint(instructions) then Some(instructions.value) else None
  {
    if HasHint(instructions) {
      BetweenOfEnclosed(BaseDirective, RequirementHeader, instructions.value, Closing);
    } else {
      assert |RequirementHeader| > 0;
      BetweenOfShort(BaseDirective + Closing, BaseDirective + RequirementHeader, Closing);
    }
  }

  // ---------------------------------------------------------------------------
  // Request and response shapes (the parts of the SDK's types the service uses)

  /** `{ mimeType, data }`; an absent field is `undefined`. */
  datatype Blob = Blob(mimeType: Option<string>, data: Option<string>)

  /** A message part: text, inline binary data, or (in a response) either or neither. */
  datatype Part = Part(text: Option<string>, inlineData: Option<Blob>)

  datatype Content = Content(parts: Option<seq<Part>>)

  datatype Candidate = Candidate(content: Option<Content>)

  datatype Response = Response(candidates: Option<seq<Candidate>>)

  datatype Request = Request(model: string, contents: Content)

  /** What the remote call did: answered with a response, or threw. */
  datatype Reply = Responded(response: Response) | Failed(reason: string)

  /** Why `removeWatermarkFromImage` rejected. */
  datatype ServiceError =
    | NoImageData            // the explicit error carrying NoImageDataMessage
    | MalformedResponse      // `candidates[0].content` or its `parts` was undefined: a TypeError
    | RemoteFailure(reason: string)  // the remote call threw; the error is rethrown as it is

  /**
   * The request for the given image payload, media type and hint: it names
   * the model and has exactly two parts, first the inline image with the given
   * media type and data, then the composed prompt as text.
   */
  function BuildRequest(base64Image: Option<string>, mimeType: string, instructions: Option<string>): (req: Request)
    ensures req.model == ModelName
    ensures req.contents.parts.Some? && |req.contents.parts.value| == 2
    ensures req.contents.parts.value[0] == Part(None, Some(Blob(Some(mimeType), base64Image)))
    ensures req.contents.parts.value[1] == Part(Some(ComposePrompt(instructions)), None)
  {
    Request(ModelName, Content(Some([
      Part(None, Some(Blob(Some(mimeType), base64Image))),
      Part(Some(ComposePrompt(instructions)), None)])))
  }

  /**
   * The request's text part is a prompt: it starts with the directive and
   * ends with the closing sentence, and the hint can be read back from it.
   */
  lemma RequestCarriesInputs(base64Image: Option<string>, mimeType: string, instructions: Option<string>)
    ensures var req := BuildRequest(base64Image, mimeType, instructions);
      && StartsWith(req.contents.parts.value[1].text.value, BaseDirective)
      && EndsWith(req.contents.parts.value[1].text.value, Closing)
      && RecoverHint(req.contents.parts.value[1].text.value) ==
           (if HasHint(instructions) then Some(instructions.value) else None)
  {
    RecoverHintOfPrompt(instructions);
  }

  // ---------------------------------------------------------------------------
  // Response extraction

  /** `part.inlineData && part.inlineData.data`: there is inline data and it is a non-empty string. */
  predicate CarriesImage(part: Part) {
    part.inlineData.Some? && part.inlineData.value.data.Some? && part.inlineData.value.data.value != []
  }

  /** The index of the first part carrying image data, or `|parts|` if none does. */
  function FirstImageIndex(parts: seq<Part>): (k: nat)
    ensures k <= |parts|
    ensures forall j :: 0 <= j < k ==> !CarriesImage(parts[j])
    ensures k < |parts| ==> CarriesImage(parts[k])
    decreases |parts|
  {
    if parts == [] then 0
    else if CarriesImage(parts[0]) then 0
    else FirstImageIndex(parts[1..]) + 1
  }

  /**
   * The outcome of extraction for a response: what the service returns or
   * throws. A success is never empty; no candidates gives the "no image data"
   * error, and a first candidate without content or parts the `TypeError`.
   */
  function ImageFromResponse(response: Response): (r: Result<string, ServiceError>)
    ensures r.Ok? ==> r.value != []
    ensures response.candidates.None? || response.candidates.value == [] ==> r == Err(NoImageData)
    ensures FirstCandidateParts(response).None? && response.candidates.Some? && response.candidates.value != [] ==>
      r == Err(MalformedResponse)
  {
    if response.candidates.None? || |response.candidates.value| == 0 then Err(NoImageData)
    else
      var first := response.candidates.value[0];
      if first.content.None? || first.content.value.parts.None? then Err(MalformedResponse)
      else
        var parts := first.content.value.parts.value;
        var k := FirstImageIndex(parts);
        if k < |parts| then Ok(parts[k].inlineData.value.data.value) else Err(NoImageData)
  }

  /** The parts of the first candidate, when the response has them. */
  function FirstCandidateParts(response: Response): Option<seq<Part>> {
    if response.candidates.None? || |response.candidates.value| == 0 then None
    else
      var first := response.candidates.value[0];
      if first.content.None? then None else first.content.value.parts
  }

  /**
   * Extraction succeeds with the data of the earliest part of the first
   * candidate that carries image data, and that data is never empty; every
   * earlier part is skipped. With no candidate, or no such part, it fails
   * with the "no image data" error.
   */
  lemma ImageFromResponseSpec(response: Response)
    ensures var r := ImageFromResponse(response);
      && (r.Ok? ==> r.value != [])
      && ((response.candidates.None? || response.candidates.value == []) ==> r == Err(NoImageData))
      && (FirstCandidateParts(response).None? && response.candidates.Some? && response.candidates.value != [] ==>
            r == Err(MalformedResponse))
      && (FirstCandidateParts(response).Some? ==>
            var parts := FirstCandidateParts(response).value;
            && (r.Err? <==> forall i :: 0 <= i < |parts| ==> !CarriesImage(parts[i]))
            && (r.Err? ==> r.error == NoImageData)
            && (forall i :: 0 <= i < |parts| && CarriesImage(parts[i]) ==>
                  r.Ok? && exists k :: 0 <= k <= i && CarriesImage(parts[k]) && parts[k].inlineData.value.data == Some(r.value)))
  {
    var parts := FirstCandidateParts(response);
    if parts.Some? {
      var k := FirstImageIndex(parts.value);
      if k < |parts.value| {
        assert CarriesImage(parts.value[k]);
      }
    }
  }

  /** Only the first candidate is looked at: the others may be anything. */
  lemma OnlyFirstCandidateMatters(r1: Response, r2: Response)
    requires r1.candidates.Some? && r2.candidates.Some?
    requires |r1.candidates.value| > 0 && |r2.candidates.value| > 0
    requires r1.candidates.value[0] == r2.candidates.value[0]
    ensures ImageFromResponse(r1) == ImageFromResponse(r2)
  {
  }

  /**
   * The scan over the first candidate's parts, in order, returning at the
   * first part that carries image data.
   */
  method ExtractImage(response: Response) returns (r: Result<string, ServiceError>)
    ensures r == ImageFromResponse(response)
  {
    if response.candidates.Some? && |response.candidates.value| > 0 {
      var first := response.candidates.value[0];
      if first.content.None? || first.content.value.parts.None? {
        return Err(MalformedResponse);
      }
      var parts := first.content.value.parts.value;
      var i := 0;
      while i < |parts|
        invariant 0 <= i <= |parts|
        invariant forall j :: 0 <= j < i ==> !CarriesImage(parts[j])
      {
        var part := parts[i];
        if part.inlineData.Some? && part.inlineData.value.data.Some? && part.inlineData.value.data.value != [] {
          return Ok(part.inlineData.value.data.value);
        }
        i := i + 1;
      }
    }
    return Err(NoImageData);
  }

  /**
   * `removeWatermarkFromImage(base64Image, mimeType, instructions)`: returns
   * the request it sends and what it resolves or rejects with, given what the
   * remote call did.
   */
  method RemoveWatermarkFromImage(base64Image: Option<string>, mimeType: string,
                                  instructions: Option<string>, reply: Reply)
    returns (request: Request, r: Result<string, ServiceError>)
    ensures request == BuildRequest(base64Image, mimeType, instructions)
    ensures reply.Failed? ==> r == Err(RemoteFailure(reply.reason))
    ensures reply.Responded? ==> r == ImageFromResponse(reply.response)
  {
    var prompt := BuildPrompt(instructions);
    request := Request(ModelName, Content(Some([
      Part(None, Some(Blob(Some(mimeType), base64Image))),
      Part(Some(prompt), None)])));
    match reply
    case Failed(reason) =>
      r := Err(RemoteFailure(reason));
    case Responded(response) =>
      r := ExtractImage(response);
  }
}
