/** The page-level flow of App.tsx that ties the pieces together: the
    reflection request (`handleGenerate`), `reset`, the voice selection and
    the play button, over an explicit page record. The text, image and
    speech requests are not performed here: their outcomes are arguments. */
module AppFlow {

  import opened Outcomes
  import opened Domain
  import Gemini
  import Transport

  /** `AppState`: IDLE, LOADING, RESULT, ERROR. */
  datatype AppState = Idle | Loading | ShowingResult | ShowingError

  /** The message shown when a failure carries no message of its own. */
  const QuietMessage: string := "The path to the soul is currently quiet. Please try again."

  datatype Page = Page(
    state: AppState,
    result: Option<Reflection>,
    error: Option<string>,
    voice: string,
    player: Transport.Player)

  /** The synchronous start of `handleGenerate`: narration is discarded
      (including its error), the page shows the loading state and the
      previous error is cleared; the previous result stays until replaced. */
  function BeginGenerate(p: Page): (r: Page)
    ensures r.state == Loading && r.error.None?
    ensures r.player == Transport.ClearForNewReflection(p.player)
    ensures r.result == p.result && r.voice == p.voice
  {
    p.(state := Loading, error := None, player := Transport.ClearForNewReflection(p.player))
  }

  /** The end of `handleGenerate`. A failed text generation shows its
      message (or the fallback when it has none) and keeps the page's
      result; a successful one is shown even when the image failed, and
      carries the image URL only when the image succeeded. */
  function FinishGenerate(p: Page, text: Result<Reflection>, image: Result<string>): (r: Page)
    ensures text.Err? ==> r.state == ShowingError && r.result == p.result
    ensures text.Err? && text.message != "" ==> r.error == Some(text.message)
    ensures text.Err? && text.message == "" ==> r.error == Some(QuietMessage)
    ensures text.Ok? ==> r.state == ShowingResult && r.error == p.error && r.result.Some?
    ensures text.Ok? ==> r.result.value.(imageUrl := text.value.imageUrl) == text.value
    ensures text.Ok? && image.Ok? ==> r.result.value.imageUrl == Some(image.value)
    ensures text.Ok? && image.Err? ==> r.result == Some(text.value)
    ensures r.player == p.player && r.voice == p.voice
  {
    match text
    case Err(message) =>
      p.(state := ShowingError, error := Some(if message != "" then message else QuietMessage))
    case Ok(data) =>
      var shown := if image.Ok? then data.(imageUrl := Some(image.value)) else data;
      p.(state := ShowingResult, result := Some(shown))
  }

  /** `handleGenerate` driven by the text response: an empty text fails with
      the classified message before anything is parsed; otherwise `parsed`
      stands for `JSON.parse` of the text, which the source does not
      validate. */
  function FinishFromResponse(p: Page, response: Gemini.Response, parsed: Result<Reflection>,
                              image: Result<string>): (r: Page)
    ensures Gemini.ReflectionText(response).Err? ==>
      r.state == ShowingError && r.error == Some(Gemini.ReflectionText(response).message)
    ensures Gemini.ReflectionText(response).Err? ==>
      && r == FinishGenerate(p, Err(Gemini.ReflectionText(response).message), image)
      && r.(state := p.state, error := p.error) == p
    ensures Gemini.ReflectionText(response).Ok? ==> r == FinishGenerate(p, parsed, image)
  {
    match Gemini.ReflectionText(response)
    case Err(message) => FinishGenerate(p, Err(message), image)
    case Ok(_) => FinishGenerate(p, parsed, image)
  }

  /** A response withheld for safety ends the request on the safety message,
      never on a result. */
  lemma SafetyFilteredShowsSafetyMessage(p: Page, response: Gemini.Response,
                                         parsed: Result<Reflection>, image: Result<string>)
    requires response.text.None? || response.text == Some("")
    requires response.candidates.Some? && |response.candidates.value| > 0
    requires response.candidates.value[0].finishReason == Some("SAFETY")
    ensures var r := FinishFromResponse(BeginGenerate(p), response, parsed, image);
            r.state == ShowingError && r.error == Some(Gemini.SafetyMessage)
  {
    assert Gemini.FirstCandidate(response).Some?;
  }

  /** `reset`: narration discarded (including its error), page back to idle
      with no result and no error. */
  function Reset(p: Page): (r: Page)
    ensures r.state == Idle && r.result.None? && r.error.None?
    ensures r.player == Transport.ClearForNewReflection(p.player)
    ensures r.voice == p.voice
  {
    p.(state := Idle, result := None, error := None, player := Transport.ClearForNewReflection(p.player))
  }

  /** Choosing a narration voice. The effect that discards the narration
      runs only when the selection actually changes. */
  function SelectVoice(p: Page, voice: string): (r: Page)
    ensures r.voice == voice
    ensures voice == p.voice ==> r == p
    ensures voice != p.voice ==> r.player == Transport.ChangeVoice(p.player)
    ensures r.state == p.state && r.result == p.result && r.error == p.error
  {
    if voice == p.voice then p else p.(voice := voice, player := Transport.ChangeVoice(p.player))
  }

  /** The text narrated for a reflection: story, a blank line, prayer. */
  function NarrationText(reflection: Reflection): (t: string)
    ensures |t| == |reflection.story| + 2 + |reflection.prayer|
    ensures t[..|reflection.story|] == reflection.story
    ensures t[|reflection.story|..|reflection.story| + 2] == "\n\n"
    ensures t[|t| - |reflection.prayer|..] == reflection.prayer
  {
    var t := reflection.story + "\n\n" + reflection.prayer;
    assert t[..|reflection.story|] == reflection.story;
    assert t[|reflection.story|..|reflection.story| + 2] == "\n\n";
    assert t[|t| - |reflection.prayer|..] == reflection.prayer;
    t
  }

  /** The play button together with the speech request it issues, if any. */
  datatype PlayOutcome = PlayOutcome(page: Page, request: Option<Gemini.SpeechRequest>)

  /** Pressing play: the transport handles pause and resume; when it starts
      loading, a speech request for the displayed reflection in the selected
      voice goes out. */
  function PressPlay(p: Page, now: real): (o: PlayOutcome)
    ensures o.page == p.(player := Transport.PressPlay(p.player, p.result.Some?, now))
    ensures o.request.Some? <==> !p.player.loading && o.page.player.loading
    ensures o.request.Some? ==>
      && p.result.Some?
      && o.request.value == Gemini.ComposeSpeechRequest(NarrationText(p.result.value), Some(p.voice))
    ensures o.request.Some? ==> o.request.value.voice == p.voice
  {
    var player := Transport.PressPlay(p.player, p.result.Some?, now);
    var request := if !p.player.loading && player.loading
                   then Some(Gemini.ComposeSpeechRequest(NarrationText(p.result.value), Some(p.voice)))
                   else None;
    PlayOutcome(p.(player := player), request)
  }
}
