/** The response normalisation and request composition of
    services/geminiService.ts. The SDK call itself is not modelled: a
    response is a value of the `Response` datatype, shaped as the SDK's
    (candidates, their content's parts, each part's optional inline data, the
    finish reason, and the `text` accessor's value). */
module Gemini {

  import opened Outcomes
  import opened JsSemantics

  datatype InlineData = InlineData(mimeType: Option<string>, data: Option<string>)

  datatype Part = Part(text: Option<string>, inlineData: Option<InlineData>)

  datatype Content = Content(parts: Option<seq<Part>>)

  datatype Candidate = Candidate(content: Option<Content>, finishReason: Option<string>)

  datatype Response = Response(candidates: Option<seq<Candidate>>, text: Option<string>)

  const SafetyMessage: string := "The request was filtered for safety. Please try a different scenario."
  const SilentMessage: string := "The sanctuary is silent. Please try your request again."
  const NoImageMessage: string := "No image generated"
  const NoImageDataMessage: string := "Failed to extract image data"
  const NoAudioMessage: string := "Audio generation failed"

  const ImagePreamble: string := "Digital art masterpiece: "
  const ImageStyle: string := ". Cinematic lighting, soft ethereal glow, spiritual and peaceful, highly detailed, 4k."
  const ImageAspectRatio: string := "16:9"
  const DataUriPrefix: string := "data:image/png;base64,"
  const NarrationInstruction: string := "Read the following with deep compassion and a soothing tone: "
  const DefaultVoice: string := "Kore"

  /** `response.candidates?.[0]`. */
  function FirstCandidate(r: Response): (c: Option<Candidate>)
    ensures c.Some? <==> r.candidates.Some? && |r.candidates.value| > 0
    ensures c.Some? ==> c.value == r.candidates.value[0]
  {
    if r.candidates.Some? && |r.candidates.value| > 0 then Some(r.candidates.value[0]) else None
  }

  /** `candidate.content?.parts`. */
  function PartsOf(c: Candidate): Option<seq<Part>> {
    if c.content.Some? then c.content.value.parts else None
  }

  /** The classification at the end of `generatePrayer`: an empty or missing
      text is an error, which is the safety message exactly when the first
      candidate finished for safety; otherwise the text goes on to
      `JSON.parse`. */
  function ReflectionText(r: Response): (res: Result<string>)
    ensures res.Ok? <==> Truthy(r.text)
    ensures res.Ok? ==> res.value == r.text.value && res.value != ""
    ensures res.Err? ==> res.message == SafetyMessage || res.message == SilentMessage
    ensures res.Err? ==>
      (res.message == SafetyMessage <==>
         FirstCandidate(r).Some? && FirstCandidate(r).value.finishReason == Some("SAFETY"))
  {
    if !Truthy(r.text) then
      var c := FirstCandidate(r);
      if c.Some? && c.value.finishReason == Some("SAFETY") then Err(SafetyMessage) else Err(SilentMessage)
    else
      Ok(r.text.value)
  }

  /** The two error messages of `generatePrayer` are distinguishable. */
  lemma SafetyIsDistinguishable()
    ensures SafetyMessage != SilentMessage
  {
    assert |SafetyMessage| != |SilentMessage|;
  }

  /** The extraction loop of `generateImage`: with no first candidate or no
      parts there is no image; otherwise the first part carrying inline data
      becomes a PNG data URI whatever its MIME type, and with none of them the
      extraction fails. */
  method ExtractImage(r: Response) returns (res: Result<string>)
    ensures FirstCandidate(r).None? || PartsOf(FirstCandidate(r).value).None? ==>
      res == Err(NoImageMessage)
    ensures FirstCandidate(r).Some? && PartsOf(FirstCandidate(r).value).Some? ==>
      var parts := PartsOf(FirstCandidate(r).value).value;
      && (res.Ok? <==> exists i :: 0 <= i < |parts| && parts[i].inlineData.Some?)
      && (res.Err? ==> res.message == NoImageDataMessage)
      && (res.Ok? ==>
            exists k :: && 0 <= k < |parts| && parts[k].inlineData.Some?
                        && (forall j :: 0 <= j < k ==> parts[j].inlineData.None?)
                        && res.value == DataUriPrefix + Interpolate(parts[k].inlineData.value.data))
  {
    var candidate := FirstCandidate(r);
    if candidate.None? || PartsOf(candidate.value).None? {
      return Err(NoImageMessage);
    }
    var parts := PartsOf(candidate.value).value;
    var i := 0;
    while i < |parts|
      invariant 0 <= i <= |parts|
      invariant forall j :: 0 <= j < i ==> parts[j].inlineData.None?
    {
      if parts[i].inlineData.Some? {
        return Ok(DataUriPrefix + Interpolate(parts[i].inlineData.value.data));
      }
      i := i + 1;
    }
    return Err(NoImageDataMessage);
  }

  /** `response.candidates?.[0]?.content?.parts?.[0]?.inlineData?.data`. */
  function FirstPartData(r: Response): (d: Option<string>)
    ensures var c := FirstCandidate(r);
            (|| c.None? || PartsOf(c.value).None? || |PartsOf(c.value).value| == 0
             || PartsOf(c.value).value[0].inlineData.None?) ==> d.None?
    ensures var c := FirstCandidate(r);
            (&& c.Some? && PartsOf(c.value).Some? && |PartsOf(c.value).value| > 0
             && PartsOf(c.value).value[0].inlineData.Some?) ==>
            d == PartsOf(c.value).value[0].inlineData.value.data
  {
    var c := FirstCandidate(r);
    if c.None? then None
    else
      var parts := PartsOf(c.value);
      if parts.None? || |parts.value| == 0 then None
      else if parts.value[0].inlineData.None? then None
      else parts.value[0].inlineData.value.data
  }

  /** The end of `generateAudio`: a missing or empty payload is an error,
      anything else is returned as it is. */
  function ExtractAudio(r: Response): (res: Result<string>)
    ensures res.Ok? <==> Truthy(FirstPartData(r))
    ensures res.Ok? ==> res.value != "" && Some(res.value) == FirstPartData(r)
    ensures res.Err? ==> res.message == NoAudioMessage
  {
    var data := FirstPartData(r);
    if Truthy(data) then Ok(data.value) else Err(NoAudioMessage)
  }

  /** Only the first part of the first candidate matters to the audio
      extraction: responses that agree on it extract the same audio, even if
      a later part carries audio and the first does not. */
  lemma AudioLooksOnlyAtFirstPart(r: Response, r': Response)
    requires FirstCandidate(r).Some? && FirstCandidate(r').Some?
    requires PartsOf(FirstCandidate(r).value).Some? && PartsOf(FirstCandidate(r').value).Some?
    requires var p := PartsOf(FirstCandidate(r).value).value;
             var p' := PartsOf(FirstCandidate(r').value).value;
             |p| > 0 && |p'| > 0 && p[0] == p'[0]
    ensures ExtractAudio(r) == ExtractAudio(r')
  {
  }

  /** The image request: a fixed preamble, the prompt, a fixed style
      suffix, and a 16:9 aspect ratio. */
  datatype ImageRequest = ImageRequest(text: string, aspectRatio: string)

  function ComposeImageRequest(prompt: string): (q: ImageRequest)
    ensures q.aspectRatio == ImageAspectRatio
    ensures StripAffixes(q.text, ImagePreamble, ImageStyle) == Some(prompt)
  {
    AffixRoundTrip(ImagePreamble, prompt, ImageStyle);
    ImageRequest(ImagePreamble + prompt + ImageStyle, ImageAspectRatio)
  }

  /** The speech request: a fixed tone instruction before the text, and the
      voice, which defaults to Kore only when none is passed (an empty name
      is sent as it is). */
  datatype SpeechRequest = SpeechRequest(text: string, voice: string)

  function ComposeSpeechRequest(text: string, voice: Option<string>): (q: SpeechRequest)
    ensures StripAffixes(q.text, NarrationInstruction, "") == Some(text)
    ensures voice.Some? ==> q.voice == voice.value
    ensures voice.None? ==> q.voice == DefaultVoice
  {
    AffixRoundTrip(NarrationInstruction, text, "");
    assert NarrationInstruction + text + "" == NarrationInstruction + text;
    SpeechRequest(NarrationInstruction + text, voice.GetOr(DefaultVoice))
  }

  /** The middle of `s` between a given prefix and suffix, if it has them. */
  function StripAffixes(s: string, prefix: string, suffix: string): (r: Option<string>)
    ensures r.Some? ==> prefix + r.value + suffix == s
  {
    if |s| >= |prefix| + |suffix| && s[..|prefix|] == prefix && s[|s| - |suffix|..] == suffix then
      var middle := s[|prefix|..|s| - |suffix|];
      assert prefix + middle + suffix == s;
      Some(middle)
    else None
  }

  lemma AffixRoundTrip(prefix: string, x: string, suffix: string)
    ensures StripAffixes(prefix + x + suffix, prefix, suffix) == Some(x)
  {
    var s := prefix + x + suffix;
    assert s[..|prefix|] == prefix;
    assert s[|s| - |suffix|..] == suffix;
    assert s[|prefix|..|s| - |suffix|] == x;
  }
}
