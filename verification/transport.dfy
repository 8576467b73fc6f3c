/** The narration transport of App.tsx: the cached decoded buffer, the
    play/pause flag, the resume offset (`pausedTimeRef`), the playback start
    time (`startTimeRef`), the displayed time (`currentPlaybackTime`), the
    duration, the loading and error flags, the volume, and the identity of
    the current source node. Every handler is a pure transition over an
    immutable record; the audio clock (`AudioContext.currentTime`) is the
    `now` argument, in seconds. */
module Transport {

  import opened Outcomes
  import opened JsSemantics
  import Pcm

  /** The message shown over the playback panel when narration fails. */
  const LoadFailure: string := "Unable to load narration."

  /** The volume the page starts with. */
  const InitialVolume: real := 0.8

  /** A decoded narration buffer (`AudioBuffer`). */
  datatype AudioTrack = AudioTrack(channels: seq<seq<real>>, frameCount: nat, sampleRate: nat)

  /** A buffer the application can hold: it is only ever built from a
      non-empty, even-length payload, so it has at least one frame. */
  type Track = t: AudioTrack | t.frameCount > 0 && t.sampleRate > 0 witness AudioTrack([], 1, 1)

  /** `AudioBuffer.duration`, in seconds. */
  function Duration(t: Track): (d: real)
    ensures d > 0.0
  {
    t.frameCount as real / t.sampleRate as real
  }

  /** The identity of an `AudioBufferSourceNode`; each start creates a new one. */
  type SourceId = nat

  datatype Player = Player(
    track: Option<Track>,       // audioBufferRef
    playing: bool,              // isPlaying
    offset: real,               // pausedTimeRef: where playback (re)starts
    startedAt: real,            // startTimeRef: clock reading at the last start
    shown: real,                // currentPlaybackTime: the displayed position
    duration: real,             // duration (0 when no buffer)
    loading: bool,              // audioLoading
    error: Option<string>,      // audioError
    source: Option<SourceId>,   // audioSourceRef
    nextSource: SourceId,       // the id the next created source receives
    contextReady: bool,         // audioContextRef has been created
    volume: real,               // volume
    gain: Option<real>,         // gainNodeRef's gain, once the node exists
    requestVolume: real)        // the volume the pending request's handler saw

  /** The transport when the page loads. */
  function Initial(): (s: Player)
    ensures Valid(s)
    ensures !s.playing && s.track.None? && s.error.None? && s.volume == InitialVolume
    ensures !s.loading && s.source.None? && !s.contextReady && s.gain.None?
    ensures s.offset == 0.0 && s.shown == 0.0 && s.duration == 0.0
  {
    Player(None, false, 0.0, 0.0, 0.0, 0.0, false, None, None, 0, false, InitialVolume, None, InitialVolume)
  }

  /** The consistency the handlers maintain between the fields. */
  predicate Valid(s: Player) {
    && (s.source.Some? ==> s.source.value < s.nextSource)
    && (s.playing ==> s.source.Some? && s.track.Some?)
    && (s.track.Some? ==> s.contextReady && s.duration == Duration(s.track.value))
    && (s.track.None? ==> s.duration == 0.0 && s.offset == 0.0 && s.shown == 0.0 && !s.playing)
    && (s.loading ==> s.track.None?)
    && 0.0 <= s.offset
    && (s.playing ==> s.offset < s.duration)
    && 0.0 <= s.shown <= s.duration
  }

  /** `stopAudio`: stops and forgets the current source, clears the flag. */
  function Stop(s: Player): (r: Player)
    ensures !r.playing && r.source.None?
    ensures r.(playing := s.playing, source := s.source) == s
  {
    s.(playing := false, source := None)
  }

  /** `playBuffer(buffer, offset)`: without an audio context nothing happens;
      otherwise the previous source is stopped, a fresh source starts at
      `offset % duration`, and that wrapped offset becomes the resume offset.
      `volume` is the `volume` of the render whose closure is running: the
      current one for the synchronous handlers, the one of the play press
      for the code after the speech request's `await`. */
  function PlayBuffer(s: Player, t: Track, offset: real, now: real, volume: real): (r: Player)
    ensures !s.contextReady ==> r == s
    ensures s.contextReady ==>
      && r.playing
      && r.source == Some(s.nextSource) && r.nextSource == s.nextSource + 1
      && r.startedAt == now
      && r.offset == JsRem(offset, Duration(t))
      && r.gain == Some(volume)
    ensures s.contextReady ==>
      r.(playing := s.playing, source := s.source, nextSource := s.nextSource,
         startedAt := s.startedAt, offset := s.offset, gain := s.gain) == s
    ensures s.contextReady && offset >= 0.0 ==> 0.0 <= r.offset < Duration(t)
    ensures s.contextReady && 0.0 <= offset < Duration(t) ==> r.offset == offset
    ensures r.track == s.track && r.duration == s.duration && r.shown == s.shown
    ensures r.loading == s.loading && r.error == s.error && r.volume == s.volume
    ensures r.requestVolume == s.requestVolume
  {
    if !s.contextReady then s
    else
      var stopped := Stop(s);
      JsRemBelowDivisor(offset, Duration(t));
      stopped.(gain := Some(volume), startedAt := now, offset := JsRem(offset, Duration(t)),
               source := Some(s.nextSource), nextSource := s.nextSource + 1, playing := true)
  }

  /** `togglePlayback`, synchronous part: pause (accumulating the elapsed
      time into the offset), resume from the stored offset, or, with no
      buffer and a displayed result, start fetching narration; the volume
      of this render is what the rest of the handler will use. */
  function TogglePlayback(s: Player, hasResult: bool, now: real): (r: Player)
    ensures s.playing && s.contextReady ==>
      && !r.playing && r.source.None?
      && r.offset == s.offset + (now - s.startedAt)
      && r.(offset := s.offset, playing := s.playing, source := s.source) == s
    ensures s.playing && !s.contextReady ==> r == s
    ensures !s.playing && s.track.Some? && s.contextReady ==>
      && r.playing && r.startedAt == now && r.source == Some(s.nextSource)
      && r.offset == JsRem(s.offset, Duration(s.track.value))
      && r.gain == Some(s.volume)
    ensures !s.playing && s.track.Some? ==> r == PlayBuffer(s, s.track.value, s.offset, now, s.volume)
    ensures !s.playing && s.track.Some? && !s.contextReady ==> r == s
    ensures !s.playing && s.track.None? && !hasResult ==> r == s
    ensures !s.playing && s.track.None? && hasResult ==>
      r == s.(loading := true, error := None, requestVolume := s.volume)
  {
    if s.playing then
      if s.contextReady then Stop(s.(offset := s.offset + (now - s.startedAt))) else s
    else if s.track.Some? then
      PlayBuffer(s, s.track.value, s.offset, now, s.volume)
    else if !hasResult then s
    else s.(loading := true, error := None, requestVolume := s.volume)
  }

  /** The play button is disabled while narration is loading (App.tsx:623). */
  function PressPlay(s: Player, hasResult: bool, now: real): (r: Player)
    ensures s.loading ==> r == s
    ensures !s.loading ==> r == TogglePlayback(s, hasResult, now)
  {
    if s.loading then s else TogglePlayback(s, hasResult, now)
  }

  /** The buffer decoded from a non-empty, even-length payload: mono,
      24 kHz, one frame per two bytes. */
  function DecodeTrack(payload: seq<Pcm.Byte>): (t: Track)
    requires |payload| > 0 && |payload| % 2 == 0
    ensures t.frameCount == |payload| / 2 && t.sampleRate == Pcm.NarrationRate
    ensures t.channels == Pcm.Deinterleave(payload, Pcm.NarrationChannels)
    ensures Duration(t) == (|payload| / 2) as real / 24000.0
  {
    AudioTrack(Pcm.Deinterleave(payload, Pcm.NarrationChannels),
               Pcm.FrameCount(payload, Pcm.NarrationChannels), Pcm.NarrationRate)
  }

  /** The rest of `togglePlayback` once the speech request returned a base64
      payload, given the bytes it decodes to (empty when `atob` fails). The
      audio context now exists. An empty payload, or an odd-length one that
      `Int16Array` rejects, is the narration error; otherwise the decoded
      buffer is cached, its duration published, and playback starts at 0
      with the gain set to the volume seen when play was pressed, not the
      current one. */
  function NarrationArrived(s: Player, payload: seq<Pcm.Byte>, now: real): (r: Player)
    ensures r.contextReady && !r.loading
    ensures |payload| == 0 || |payload| % 2 == 1 ==>
      r == s.(contextReady := true, loading := false, error := Some(LoadFailure))
    ensures |payload| > 0 && |payload| % 2 == 0 ==>
      && r.track == Some(DecodeTrack(payload))
      && r.duration == (|payload| / 2) as real / 24000.0
      && r.playing && r.offset == 0.0 && r.startedAt == now
      && r.source == Some(s.nextSource)
      && r.error == s.error
      && r.volume == s.volume && r.gain == Some(s.requestVolume)
    ensures |payload| > 0 && |payload| % 2 == 0 ==>
      r.(track := s.track, duration := s.duration, playing := s.playing, offset := s.offset,
         startedAt := s.startedAt, source := s.source, nextSource := s.nextSource,
         gain := s.gain, loading := s.loading, contextReady := s.contextReady) == s
  {
    var ready := s.(contextReady := true);
    if |payload| == 0 || |payload| % 2 == 1 then
      ready.(loading := false, error := Some(LoadFailure))
    else
      var t := DecodeTrack(payload);
      JsRemBelowDivisor(0.0, Duration(t));
      PlayBuffer(ready.(track := Some(t), duration := Duration(t)), t, 0.0, now, s.requestVolume).(loading := false)
  }

  /** The speech request threw: the error is shown and loading ends. */
  function NarrationFailed(s: Player): (r: Player)
    ensures r.error == Some(LoadFailure) && !r.loading
    ensures r.(error := s.error, loading := s.loading) == s
  {
    s.(loading := false, error := Some(LoadFailure))
  }

  /** The time a click at `fraction` of the bar's width points to: the
      fraction clamped to [0, 1], times the duration. */
  function SeekTarget(fraction: real, duration: real): (at: real)
    ensures duration >= 0.0 ==> 0.0 <= at <= duration
    ensures 0.0 <= fraction <= 1.0 ==> at == fraction * duration
    ensures fraction <= 0.0 ==> at == 0.0
    ensures fraction >= 1.0 ==> at == duration
  {
    var p := Clamp(fraction, 0.0, 1.0);
    FractionOfDuration(p, duration);
    p * duration
  }

  /** A fraction in [0, 1] of a non-negative duration lies within it. */
  lemma FractionOfDuration(p: real, d: real)
    requires 0.0 <= p <= 1.0
    ensures d >= 0.0 ==> 0.0 <= p * d <= d
  {
    assert d - p * d == (1.0 - p) * d;
  }

  /** `handleSeek`, given the click position as a fraction of the bar's
      width. With no buffer or a zero duration nothing happens; otherwise the
      offset and the displayed time become the clicked time, and a playing
      transport restarts there. */
  function Seek(s: Player, fraction: real, now: real): (r: Player)
    ensures s.track.None? || s.duration == 0.0 ==> r == s
    ensures s.track.Some? && s.duration != 0.0 ==>
      && r.shown == SeekTarget(fraction, s.duration)
      && r.playing == s.playing
      && r.track == s.track && r.duration == s.duration
    ensures s.track.Some? && s.duration != 0.0 && !s.playing ==>
      r == s.(offset := SeekTarget(fraction, s.duration), shown := SeekTarget(fraction, s.duration))
    ensures s.track.Some? && s.duration != 0.0 && s.playing && s.contextReady ==>
      && r.startedAt == now && r.source == Some(s.nextSource) && r.gain == Some(s.volume)
      && r.offset == JsRem(SeekTarget(fraction, s.duration), Duration(s.track.value))
      && r.(offset := s.offset, shown := s.shown, startedAt := s.startedAt, source := s.source,
            nextSource := s.nextSource, gain := s.gain) == s
  {
    if s.track.None? || s.duration == 0.0 then s
    else
      var at := SeekTarget(fraction, s.duration);
      var moved := s.(offset := at, shown := at);
      if s.playing then PlayBuffer(moved, s.track.value, at, now, s.volume) else moved
  }

  /** A source's `onended`: only the current source may act, and it stops
      the transport and rewinds it to the start. */
  function SourceEnded(s: Player, id: SourceId): (r: Player)
    ensures s.source != Some(id) ==> r == s
    ensures s.source == Some(id) ==>
      && !r.playing && r.offset == 0.0 && r.shown == 0.0
      && r.(playing := s.playing, offset := s.offset, shown := s.shown) == s
  {
    if s.source == Some(id) then s.(playing := false, offset := 0.0, shown := 0.0) else s
  }

  /** One firing of the 100 ms progress interval, which exists only while
      playing: the displayed time becomes the elapsed position, capped at the
      duration. */
  function Tick(s: Player, now: real): (r: Player)
    ensures !s.playing || !s.contextReady ==> r == s
    ensures s.playing && s.contextReady ==>
      && r.shown <= s.duration
      && (r.shown == s.offset + (now - s.startedAt) || r.shown == s.duration)
      && (s.offset + (now - s.startedAt) <= s.duration ==> r.shown == s.offset + (now - s.startedAt))
      && r.(shown := s.shown) == s
  {
    if s.playing && s.contextReady then s.(shown := Min(s.offset + (now - s.startedAt), s.duration)) else s
  }

  /** The prologue shared by the voice-change effect, `handleGenerate` and
      `reset`: stop, drop the cached buffer, zero the position and duration. */
  function DiscardAudio(s: Player): (r: Player)
    ensures !r.playing && r.source.None? && r.track.None?
    ensures r.offset == 0.0 && r.shown == 0.0 && r.duration == 0.0
    ensures r.loading == s.loading && r.error == s.error && r.volume == s.volume
    ensures r.nextSource == s.nextSource && r.contextReady == s.contextReady && r.gain == s.gain
    ensures r.(playing := s.playing, source := s.source, track := s.track, offset := s.offset,
               shown := s.shown, duration := s.duration) == s
  {
    Stop(s).(track := None, offset := 0.0, shown := 0.0, duration := 0.0)
  }

  /** The effect run when the narration voice changes; it keeps any error. */
  function ChangeVoice(s: Player): (r: Player)
    ensures r == DiscardAudio(s)
    ensures r.error == s.error
  {
    DiscardAudio(s)
  }

  /** The audio part of `handleGenerate` and `reset`: as a voice change,
      but the narration error is cleared too. */
  function ClearForNewReflection(s: Player): (r: Player)
    ensures r == DiscardAudio(s).(error := None)
  {
    DiscardAudio(s).(error := None)
  }

  /** The volume slider: the gain follows at once if the gain node exists,
      and playback is not interrupted. */
  function SetVolume(s: Player, v: real): (r: Player)
    ensures r.volume == v
    ensures r.gain == if s.gain.Some? then Some(v) else None
    ensures r.(volume := s.volume, gain := s.gain) == s
  {
    s.(volume := v, gain := if s.gain.Some? then Some(v) else None)
  }
}
