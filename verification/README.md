# Soul Whispers: the narration transport and its helpers, in Dafny

Soul Whispers is a single-page app. A user picks a devotional category and
sub-topic, and the app asks a generative-AI service for a reflection: a
title, a story, a prayer, focus points, an illustration and spoken
narration. This project models the app's logic as immutable records and
pure functions. It does not model the rendering.

- **Transport** (`transport.dfy`, `transport_properties.dfy`): the narration
  player of `App.tsx`. The player state is one record. It holds the cached
  buffer, the playing flag, the resume offset (`pausedTimeRef`), the start
  time (`startTimeRef`), the displayed time, the duration, the loading and
  error flags, the volume, and the identity of the current source node. Each
  handler is a transition on that record: stop, play-buffer, toggle, fetch
  success or failure, seek, end-of-track, progress tick, voice change, new
  reflection or reset, and volume. The audio clock is a `now` argument.
  Times are exact reals.
- **Pcm** (`pcm.dfy`): the integer part of `decodeAudioData`. It reads
  little-endian signed 16-bit samples, de-interleaves them by channel and
  normalises them by 32768.
- **ClockFormat** (`clock_format.dfy`): `formatTime` and the remaining-time
  label. A small parser serves as the inverse of the formatter.
- **Favorites** (`favorites.dfy`): `toggleFavorite`, which matches by
  title, and the drawer's delete, which matches by id.
- **Selection** (`selection.dfy`): the default sub-topic of a category and
  the label fallbacks used before generation.
- **Gemini** (`gemini.dfy`): how `services/geminiService.ts` normalises
  responses and composes requests. It models the empty-text
  classification, the image-part selection and the audio-part selection.
  The SDK response is a datatype.
- **AppFlow** (`app_flow.dfy`): the page-level LOADING / RESULT / ERROR
  flow of `handleGenerate` and `reset`, voice selection, and the play
  button that issues the speech request.
- **JsSemantics** (`js_semantics.dfy`) and **Outcomes** (`outcomes.dfy`)
  are shared helpers. JsSemantics covers JavaScript's `%` (truncated, not
  Euclidean), `Math.min`, clamping, string truthiness for `||` and template
  interpolation of `undefined`. Outcomes defines `Option`, and `Result`
  for values that may be thrown.

In four places the model follows the code where a reader might expect
otherwise:
- A voice change, a new reflection or a reset does not cancel a speech
  request already in flight. Its response is installed and played when it
  arrives (`TransportProperties.InFlightResponseOutlivesVoiceChange`).
- Un-favouriting removes every favourite with the displayed title, not one
  entry.
- Seeking also does nothing when the duration is 0, even if a buffer exists.
- The code after the speech request's `await` runs in the closure of the
  render where play was pressed. The narration therefore starts at the
  volume of that moment. If the slider moved while the narration loaded, the
  gain differs from the slider until the slider moves or playback restarts
  from the current render, by a resume or a seek
  (`TransportProperties.VolumeChangedWhileLoadingIsLost`,
  `TransportProperties.RestartResyncsGain`).

## Model

| member | source | states |
|---|---|---|
| `Pcm.Int16Le` | App.tsx:45 | Two bytes read little-endian give a sample in [-32768, 32767], which is negative exactly when the high byte has its top bit set |
| `Pcm.EncodeDecode` | App.tsx:45 | Every byte pair is the encoding of the sample it decodes to, so the 16-bit reading loses nothing |
| `Pcm.FrameCount` | App.tsx:46 | The frame count is the sample count (bytes / 2) divided by the channel count, rounded down |
| `Pcm.InterleavedIndexInRange` | App.tsx:51-52 | Frame i of channel c is read at interleaved index i*channels + c, which is always a valid sample index |
| `Pcm.Normalised` | App.tsx:52 | A sample divided by 32768 lies in [-1, 1) |
| `Pcm.DecodeAudioData` | App.tsx:39-56 | The nested loops give one sequence per channel. Each has FrameCount entries, and entry (c, i) is the little-endian int16 at index i*channels + c divided by 32768. Every entry is in [-1, 1). The result equals the functional de-interleaving |
| `Pcm.MonoIsInOrder` | App.tsx:197 | For the mono narration, frame i is the sample made of bytes 2i and 2i+1, and there are |bytes|/2 frames |
| `JsSemantics.Trunc` | App.tsx:228 | The quotient used by `%`, rounded toward zero: below or equal to a non-negative real and within 1 of it, above or equal to a negative real and within 1 of it |
| `JsSemantics.Min` | App.tsx:150 | `Math.min` is at most both arguments and equal to one of them |
| `JsSemantics.Interpolate` | services/geminiService.ts:120 | A template literal shows a present string as itself and a missing one as "undefined" |
| `JsSemantics.JsRem` | App.tsx:228-230 | JavaScript `%`: x = d*trunc(x/d) + r. A non-negative dividend gives r in [0, d) and a negative one gives r in (-d, 0] |
| `JsSemantics.JsRemBelowDivisor` | App.tsx:228 | An offset already inside the track is not moved by the modulo |
| `JsSemantics.JsRemOfDivisor` | App.tsx:228 | An offset equal to the duration wraps to 0 |
| `JsSemantics.Clamp` | App.tsx:239 | `Math.max(0, Math.min(1, x))` lies in [0, 1], keeps values already inside, and maps values below to 0 and above to 1 |
| `JsSemantics.OrElse` | App.tsx:260-262 | `a \|\| b` on strings gives a when it is present and non-empty, else b |
| `ClockFormat.Decimal` | App.tsx:62 | `toString()` of a whole number is a non-empty digit string with no leading zero, one digit long exactly for numbers below 10. `DecimalRoundTrip` gives its value |
| `ClockFormat.PadStart` | App.tsx:62 | `padStart(width, fill)` keeps the string as its suffix, is `width` long when the string is shorter, and fills the prefix with `fill` |
| `ClockFormat.DecimalRoundTrip` | App.tsx:62 | Parsing the decimal rendering of the minute count gives the count back |
| `ClockFormat.TwoDigits` | App.tsx:62 | `padStart(2, '0')` of a seconds count below 100 is two digits whose value is that count |
| `ClockFormat.FormatTime` | App.tsx:58-63 | A negative time shows "0:00". Otherwise the label is `m:ss` with m = floor(s/60), no leading zero, ss below 60, and m*60 + ss = floor(s) |
| `ClockFormat.RemainingLabel` | App.tsx:629 | With duration > 0 the label is "-" and a well-formed clock denoting floor(duration - current), or "-0:00" once current passes the duration. With no duration it is "--:--" |
| `ClockFormat.RemainingExample` | App.tsx:629 | Duration 120 at position 90 shows "-0:30" |
| `Favorites.Filter` | App.tsx:322 | `filter` keeps exactly the elements satisfying the predicate, each with its original multiplicity, and no others |
| `Favorites.FilterAppend` | App.tsx:322 | Filtering distributes over concatenation, so the kept elements stay in their relative order |
| `Favorites.WithoutTitle` | App.tsx:322 | After removal no favourite has the title. Every other favourite is kept. A list without the title is returned unchanged |
| `Favorites.WithoutTitleAppend` | App.tsx:322 | Removing a title from a concatenation removes it from each part, so the remaining favourites keep their order |
| `Favorites.DeleteById` | App.tsx:777 | The drawer's delete drops exactly the entries with that id. All others keep their multiplicity, and a list without the id is unchanged |
| `Favorites.Toggle` | App.tsx:314-331 | With no result nothing changes. With no user only the sign-in prompt opens. A present title is removed entirely, and the remaining favourites stay in their relative order (`WithoutTitle`). An absent title is prepended as one new entry with that reflection, id and timestamp, with the old list after it |
| `Favorites.DeleteByIdAppend` | App.tsx:777 | Deleting distributes over concatenation, so the remaining favourites keep their relative order |
| `Favorites.ToggleTwiceRestores` | App.tsx:320-330 | Toggling an absent title twice while signed in restores the original list |
| `Favorites.SignInThenToggleTwice` | App.tsx:314-330 | Toggling without a user leaves the list and opens the prompt. After sign-in, a toggle puts the result first and a second toggle gives back the original list |
| `Transport.Initial` | App.tsx:90-103 | The page starts stopped and not loading, with no buffer, error, source, audio context or gain node. Offset, displayed time and duration are 0, volume is 0.8, and the state is consistent |
| `Transport.Duration` | App.tsx:199 | `AudioBuffer.duration` is the frame count over the sample rate, always positive for a buffer the app can hold |
| `Transport.Stop` | App.tsx:164-172 | `stopAudio` forgets the source and clears the playing flag, and nothing else changes |
| `Transport.PlayBuffer` | App.tsx:209-233 | Without an audio context nothing changes. Otherwise a fresh source is current and playing, the start time is now, the gain is the volume, and the resume offset is offset % duration, which lies in [0, duration) for non-negative offsets and equals the offset when already inside the track. The gain is the volume of the render whose closure runs. The displayed time, buffer, duration, error, loading flag, volume and context are untouched. |
| `Transport.TogglePlayback` | App.tsx:174-188 | Playing: the offset grows by now - start and playback stops. Paused with a buffer: playback resumes from offset % duration at now. With no buffer and no result nothing changes. With a result, loading starts, the error is cleared, and the current volume is recorded as the one the pending request will play at. A pause changes only the offset, the playing flag and the source. A resume is exactly `PlayBuffer` at the stored offset with the current volume. |
| `Transport.PressPlay` | App.tsx:623 | The play button does nothing while narration is loading |
| `Transport.DecodeTrack` | App.tsx:197-199 | The decoded narration buffer has |bytes|/2 frames at 24 kHz, its channels are the de-interleaved samples, and its duration is (|bytes|/2)/24000 seconds |
| `Transport.NarrationArrived` | App.tsx:189-206 | Loading ends and the audio context exists. An empty or odd-length payload gives "Unable to load narration." and nothing else changes. Otherwise the buffer is cached, its duration is published, and playback starts at offset 0 on a fresh source with the gain set to the volume recorded at the play press, not the current slider value. The displayed time, error, volume and recorded volume are kept. |
| `Transport.NarrationFailed` | App.tsx:201-206 | A failed speech request shows the narration error, ends loading, and changes nothing else |
| `Transport.SeekTarget` | App.tsx:238-240 | The clicked time is the clamped fraction times the duration, within [0, duration]. A click at or past the right end gives the duration |
| `Transport.Seek` | App.tsx:235-246 | With no buffer or a zero duration nothing changes. Otherwise the displayed time is the clicked time. A paused player only moves its offset there. A playing one restarts at now from the clicked time modulo the duration. A playing seek changes only the offset, displayed time, start time, source, source counter and gain. |
| `Transport.SourceEnded` | App.tsx:220-226 | An end event of a source that is not current changes nothing. The current source's end stops playback and sets offset and displayed time to 0, leaving everything else unchanged |
| `Transport.Tick` | App.tsx:145-162 | A tick does nothing unless playing. Otherwise the displayed time is offset + (now - start), capped at the duration, and nothing else changes |
| `Transport.DiscardAudio` | App.tsx:137-143 | Stops playback, drops the buffer, and zeroes offset, displayed time and duration. Every other field is unchanged: loading flag, error, volume, gain, start time, source counter, audio context and the volume recorded for a pending request |
| `Transport.ChangeVoice` | App.tsx:137-143 | A voice change discards the audio and keeps the narration error |
| `Transport.ClearForNewReflection` | App.tsx:249-254 | `handleGenerate` and `reset` discard the audio and also clear the narration error |
| `Transport.SetVolume` | App.tsx:130-134 | The volume is set, the gain follows it if the gain node exists, and playback is not touched |
| `TransportProperties.StepPreservesValid` | App.tsx:137-246 | Every event preserves consistency when the clock does not run backwards and at most one speech request is in flight. Consistency means: the displayed time is within [0, duration], a playing player has a buffer and a current source, its offset is inside the track, and no buffer means zero position and duration |
| `TransportProperties.GainFollowsSlider` | App.tsx:130-134 | Every handler except the narration response keeps the gain equal to the slider volume |
| `TransportProperties.InitialGainInSync` | App.tsx:93-99 | The page starts with no gain node, so gain and slider agree, and any first event other than a narration response keeps them so |
| `TransportProperties.ArrivalUsesPressVolume` | App.tsx:200 | A decoded response plays at the volume recorded at the play press. It matches the slider exactly when the slider has not moved since |
| `TransportProperties.VolumeChangedWhileLoadingIsLost` | App.tsx:191-200 | Press play, move the slider while loading, then receive audio: the narration plays at the old volume while the slider shows the new one |
| `TransportProperties.RestartResyncsGain` | App.tsx:209-218 | A seek while playing (App.tsx:244), or a pause then resume (App.tsx:183), restarts playback from the current render and puts the gain back in step with the slider |
| `TransportProperties.PauseThenResume` | App.tsx:175-184 | Pausing stores old offset + (pause time - start). The next press resumes at that offset modulo the duration, which is exactly that offset when it is still inside the track |
| `TransportProperties.SeekToEndThenPlayRestarts` | App.tsx:228-246 | A paused seek to 100% sets the offset to the duration, and the next play starts at 0 |
| `TransportProperties.SeekHalfWay` | App.tsx:241-245 | A 50% seek while paused moves the offset to D/2 without starting. While playing it restarts at once from D/2 on a fresh source |
| `TransportProperties.SeekExample` | App.tsx:235-246 | A 120 s track clicked at 75% while paused has offset 90, shows 90, and the remaining label reads "-0:30" |
| `TransportProperties.ReplacedSourceStaysStale` | App.tsx:220-231 | A source that is no longer current never becomes current again, so its late end event is ignored after any event |
| `TransportProperties.PauseIgnoresOwnEnd` | App.tsx:164-181 | The end event triggered by stopping a paused source changes nothing |
| `TransportProperties.VoiceChangeRefetches` | App.tsx:137-143 | After a voice change the position is 0 and there is no buffer, so the next play press requests narration again |
| `TransportProperties.DiscardPathsDiffer` | App.tsx:282-288 | The reset/generate discard equals the voice-change discard plus clearing the error. An existing error survives only a voice change |
| `TransportProperties.InFlightResponseOutlivesVoiceChange` | App.tsx:189-200 | A speech response requested before a voice change is still installed and played when it arrives |
| `Gemini.FirstCandidate` | services/geminiService.ts:113 | `response.candidates?.[0]` exists exactly when the list is present and non-empty, and is then its first element |
| `Gemini.ReflectionText` | services/geminiService.ts:81-87 | A missing or empty text is always an error, and non-empty text passes through. The error is the safety message exactly when the first candidate's finish reason is SAFETY. Otherwise it is "The sanctuary is silent…" |
| `Gemini.ExtractImage` | services/geminiService.ts:113-124 | No first candidate or no parts gives "No image generated". Otherwise the result succeeds iff some part has inline data. It is then "data:image/png;base64," + the data of the first such part (the text "undefined" when that part has no data string), whatever its MIME type, and otherwise "Failed to extract image data" |
| `Gemini.ExtractAudio` | services/geminiService.ts:141-143 | The first part's inline data string is returned when present and non-empty. Otherwise the result is "Audio generation failed" |
| `Gemini.FirstPartData` | services/geminiService.ts:141 | The optional chain gives the first part's inline data string when every link is present. A missing candidate, missing parts, an empty part list or a first part without inline data gives nothing |
| `Gemini.AudioLooksOnlyAtFirstPart` | services/geminiService.ts:141 | Responses whose first part agrees extract the same audio, whatever the later parts hold |
| `Gemini.ComposeImageRequest` | services/geminiService.ts:102-108 | The image request text is the fixed preamble, the prompt and the fixed style suffix, and stripping them recovers the prompt. The aspect ratio is "16:9" |
| `Gemini.ComposeSpeechRequest` | services/geminiService.ts:127-135 | The speech text is the fixed tone instruction followed by the text, which stripping recovers. The voice is the one passed, or "Kore" when none is passed |
| `Selection.FindFirst` | App.tsx:115 | `find` returns nothing iff no element matches. Otherwise it returns a matching element with no match before it |
| `Selection.DefaultSubTopic` | App.tsx:114-121 | The default sub-topic exists iff the first category with the id has a non-empty sub-topic list, and it is that list's first entry |
| `Selection.SituationLabel` | App.tsx:259-260 | The category label is the found category's label when non-empty, else the raw id |
| `Selection.SubTopicLabel` | App.tsx:261 | The sub-topic label is the first non-empty of the override, the selected sub-topic's label and the category label |
| `Selection.LanguageName` | App.tsx:262 | The first language with the code gives its name when that is non-empty. Otherwise, including when no language has the code, the result is "English". It is never empty |
| `Selection.Query` | App.tsx:259-264 | The request carries the category label, the sub-topic label computed from that category label, and the language name. The language is never empty, and the sub-topic is non-empty whenever the category label is |
| `AppFlow.BeginGenerate` | App.tsx:248-256 | Generation starts in LOADING with no error and the narration discarded, including its error. The previous result stays |
| `AppFlow.FinishGenerate` | App.tsx:264-279 | A text failure shows ERROR with its message, or the "path to the soul is currently quiet" fallback when the message is empty, and keeps the result. A text success shows RESULT even if the image failed, with the image URL set exactly when the image succeeded |
| `AppFlow.FinishFromResponse` | App.tsx:264-279 | An empty text response ends in ERROR with the classified message before any parsing, and the previous result, the voice and the narration state are kept. Otherwise the parsed reflection goes through the normal finish |
| `AppFlow.SafetyFilteredShowsSafetyMessage` | services/geminiService.ts:81-87 | A safety-filtered empty response ends the request on the safety message, never on a result |
| `AppFlow.Reset` | App.tsx:282-292 | Reset returns to IDLE with no result, no error and the narration discarded, including its error |
| `AppFlow.SelectVoice` | App.tsx:137-143 | Picking the current voice changes nothing. Picking another one records it and discards the narration |
| `AppFlow.NarrationText` | App.tsx:190 | The narrated text is the story, a blank line ("\n\n"), then the prayer |
| `AppFlow.PressPlay` | App.tsx:186-191 | A speech request goes out exactly when the press starts loading. It carries the displayed reflection's narration text and the selected voice |

## Left out

- Rendering: the JSX, styling, modals, the favourites-drawer markup,
  `components/SituationCard.tsx`, scrolling, sharing, the clipboard and
  font/line-spacing choices. They are presentation only.
- The network calls to the generation service and the natural-language
  prompt body of `generatePrayer`. Responses and thrown errors are
  arguments.
- `JSON.parse(text) as PrayerResponse` (services/geminiService.ts:89) does
  no field validation, so the parsed reflection is an argument and no
  schema check is modelled.
- localStorage persistence and the startup parse (App.tsx:75-82, 105-112).
  These are browser I/O, and the startup parse is unguarded, so no default
  on invalid data is claimed. Signing in (`handleLogin`, which sets the user
  and closes the sign-in dialog) and signing out (the inline `setUser(null)`
  at App.tsx:381) are not modelled. The user is an argument of
  `Favorites.Toggle`.
- `atob` in `decodeBase64` (App.tsx:24-37) is not modelled. The decoded
  bytes are an argument of `Transport.NarrationArrived`, and a decoding
  failure is the empty payload.
- Web Audio objects are not modelled: the AudioContext, the gain node
  wiring, and `start`/`stop` on sources. The context's existence is a flag,
  sources are numbered identities, and their `ended` events are
  transitions.
- The `setInterval` mechanics and the unmount cleanup (App.tsx:123-128).
  One firing of the interval is `Transport.Tick`.
- Floating point: NaN handling in `formatTime`, a zero-width seek bar, and
  IEEE rounding of `/32768` and of clock deltas. Times and samples are
  exact reals.
- `Int16Array` platform endianness: little-endian is assumed.
- `Pcm.DecodeAudioData` requires an even byte count. The `RangeError` that
  `Int16Array` throws on odd counts is caught by `togglePlayback`, and
  `Transport.NarrationArrived` models it as the narration error.
- `Pcm.FrameCount`: with several channels that do not divide the sample
  count, the source computes a fractional frame count. The model rounds it
  down, because the extra writes fall outside the buffer. The narration
  always uses one channel.
- `ClockFormat.FormatTime`: minute counts of 10^21 or more, which
  JavaScript prints in exponent notation, are not modelled.
- `Date.now()` ids and timestamps are arguments of `Favorites.Toggle`.
- Opening a favourite from the drawer (App.tsx:770-772) is not modelled.
  It sets the result and the RESULT state and touches no narration state.
- React's asynchronous, batched state updates are not modelled. Each
  handler is an atomic transition.
- `TransportProperties.StepPreservesValid`: it assumes at most one speech
  request in flight, which the disabled play button ensures. It also
  assumes the audio clock does not run backwards.
- The static catalog (constants.tsx) and the type declarations (types.ts)
  are not encoded. Categories and languages are arguments.
