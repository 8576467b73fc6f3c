/** Properties of the narration transport that relate several handlers:
    the invariant every event preserves, pause/resume, seeking, the
    stale-`onended` guard, the three discard paths and the gain that the
    narration response installs. */
module TransportProperties {

  import opened Outcomes
  import opened JsSemantics
  import Pcm
  import ClockFormat
  import opened Transport

  /** Everything that can happen to the transport. */
  datatype Event =
    | PlayPressed(hasResult: bool, now: real)
    | NarrationReady(payload: seq<Pcm.Byte>, now: real)
    | NarrationError
    | SeekClicked(fraction: real, now: real)
    | Ended(id: SourceId)
    | ProgressTick(now: real)
    | VoiceSelected
    | NewReflection
    | VolumeChanged(v: real)

  function Step(s: Player, e: Event): Player {
    match e
    case PlayPressed(hasResult, now) => PressPlay(s, hasResult, now)
    case NarrationReady(payload, now) => NarrationArrived(s, payload, now)
    case NarrationError => NarrationFailed(s)
    case SeekClicked(fraction, now) => Seek(s, fraction, now)
    case Ended(id) => SourceEnded(s, id)
    case ProgressTick(now) => Tick(s, now)
    case VoiceSelected => ChangeVoice(s)
    case NewReflection => ClearForNewReflection(s)
    case VolumeChanged(v) => SetVolume(s, v)
  }

  /** The environment's side of the bargain: the audio clock never runs
      backwards past the last start, and a narration response only arrives
      while its request is in flight (the play button is disabled meanwhile,
      so there is at most one). */
  predicate Admissible(s: Player, e: Event) {
    match e
    case PlayPressed(_, now) => now >= s.startedAt
    case NarrationReady(_, now) => s.loading
    case SeekClicked(_, now) => now >= s.startedAt
    case ProgressTick(now) => now >= s.startedAt
    case _ => true
  }

  /** Every admissible event keeps the transport consistent: the displayed
      time stays within the duration, a playing transport has a buffer and a
      current source, and the offset of a playing transport is inside the
      track. */
  lemma StepPreservesValid(s: Player, e: Event)
    requires Valid(s) && Admissible(s, e)
    ensures Valid(Step(s, e))
  {
    match e
    case PlayPressed(hasResult, now) =>
      if !s.loading && !s.playing && s.track.Some? {
        assert 0.0 <= s.offset;
      }
    case NarrationReady(payload, now) =>
      if |payload| > 0 && |payload| % 2 == 0 {
        var t := DecodeTrack(payload);
        assert Step(s, e).duration == Duration(t);
      }
    case NarrationError =>
    case SeekClicked(fraction, now) =>
      if s.track.Some? && s.duration != 0.0 {
        var at := SeekTarget(fraction, s.duration);
        assert 0.0 <= at <= s.duration;
      }
    case Ended(id) =>
    case ProgressTick(now) =>
    case VoiceSelected =>
    case NewReflection =>
    case VolumeChanged(v) =>
  }

  /** Pausing stores the old offset plus the time played since the start;
      pressing play again resumes from there (wrapped into the track). */
  lemma PauseThenResume(s: Player, pauseAt: real, resumeAt: real)
    requires Valid(s) && s.playing && !s.loading && pauseAt >= s.startedAt
    ensures var paused := PressPlay(s, true, pauseAt);
            && !paused.playing
            && paused.offset == s.offset + (pauseAt - s.startedAt)
            && var resumed := PressPlay(paused, true, resumeAt);
               && resumed.playing && resumed.startedAt == resumeAt
               && resumed.offset == JsRem(s.offset + (pauseAt - s.startedAt), s.duration)
               && (s.offset + (pauseAt - s.startedAt) < s.duration ==>
                     resumed.offset == s.offset + (pauseAt - s.startedAt))
  {
    var paused := PressPlay(s, true, pauseAt);
    JsRemBelowDivisor(paused.offset, s.duration);
  }

  /** Seeking to the very end while paused and then pressing play restarts
      the narration from the beginning, because the start offset is taken
      modulo the duration. */
  lemma SeekToEndThenPlayRestarts(s: Player, now: real, later: real)
    requires Valid(s) && s.track.Some? && !s.playing && !s.loading
    ensures var sought := Seek(s, 1.0, now);
            && sought.offset == s.duration && sought.shown == s.duration
            && var played := PressPlay(sought, true, later);
               played.playing && played.offset == 0.0
  {
    JsRemOfDivisor(s.duration);
  }

  /** Seeking while paused moves the resume offset without starting
      playback; seeking while playing restarts at once from the new offset
      (half-way through in the example of a 50% click). */
  lemma SeekHalfWay(s: Player, now: real)
    requires Valid(s) && s.track.Some?
    ensures var r := Seek(s, 0.5, now);
            && r.playing == s.playing
            && (!s.playing ==> r.offset == s.duration / 2.0 && r.startedAt == s.startedAt)
            && (s.playing ==> r.offset == s.duration / 2.0 && r.startedAt == now
                              && r.source == Some(s.nextSource))
  {
    JsRemBelowDivisor(s.duration / 2.0, s.duration);
  }

  /** A 120-second track clicked at 75% shows 1:30 played and "-0:30" left. */
  lemma SeekExample(s: Player, now: real)
    requires Valid(s) && s.track.Some? && s.duration == 120.0 && !s.playing
    ensures var r := Seek(s, 0.75, now);
            && r.offset == 90.0 && r.shown == 90.0
            && ClockFormat.RemainingLabel(r.duration, r.shown) == "-0:30"
  {
    ClockFormat.RemainingExample();
  }

  /** Source ids only grow, so a source that has been replaced or stopped
      never becomes current again: its late `onended` is always ignored. */
  lemma ReplacedSourceStaysStale(s: Player, e: Event, id: SourceId)
    requires Valid(s) && id < s.nextSource && s.source != Some(id)
    ensures id < Step(s, e).nextSource
    ensures Step(s, e).source != Some(id)
    ensures SourceEnded(Step(s, e), id) == Step(s, e)
  {
  }

  /** Pausing forgets the current source, so the `ended` event its stop
      triggers changes nothing. */
  lemma PauseIgnoresOwnEnd(s: Player, now: real)
    requires Valid(s) && s.playing && !s.loading && now >= s.startedAt
    ensures var paused := PressPlay(s, true, now);
            SourceEnded(paused, s.source.value) == paused
  {
  }

  /** After a voice change the next press of play requests narration
      again instead of replaying the old buffer. */
  lemma VoiceChangeRefetches(s: Player, now: real)
    requires Valid(s) && !s.loading
    ensures var changed := ChangeVoice(s);
            && changed.shown == 0.0 && changed.track.None?
            && PressPlay(changed, true, now) == changed.(loading := true, error := None, requestVolume := s.volume)
  {
  }

  /** The three discard paths agree except that only a new reflection or a
      reset clears the narration error. */
  lemma DiscardPathsDiffer(s: Player)
    ensures ClearForNewReflection(s) == ChangeVoice(s).(error := None)
    ensures s.error.Some? ==> ChangeVoice(s).error == s.error && ClearForNewReflection(s).error.None?
  {
  }

  /** A speech response that was requested before a voice change (or a new
      reflection) is still installed when it arrives: nothing ties a response
      to the request generation that issued it. */
  lemma InFlightResponseOutlivesVoiceChange(s: Player, payload: seq<Pcm.Byte>, now: real)
    requires Valid(s) && s.loading
    requires |payload| > 0 && |payload| % 2 == 0
    ensures var r := NarrationArrived(ChangeVoice(s), payload, now);
            r.playing && r.track == Some(DecodeTrack(payload))
  {
  }

  /** The gain node plays at the volume the slider shows. */
  predicate GainInSync(s: Player) {
    s.gain.Some? ==> s.gain.value == s.volume
  }

  /** Every handler that runs in the current render keeps the gain in step
      with the slider. */
  lemma GainFollowsSlider(s: Player, e: Event)
    requires GainInSync(s) && !e.NarrationReady?
    ensures GainInSync(Step(s, e))
  {
  }

  /** A decoded narration response plays at the volume seen when play was
      pressed, so it is in step with the slider exactly when the slider has
      not moved since. */
  lemma ArrivalUsesPressVolume(s: Player, payload: seq<Pcm.Byte>, now: real)
    requires |payload| > 0 && |payload| % 2 == 0
    ensures var r := NarrationArrived(s, payload, now);
            && r.gain == Some(s.requestVolume)
            && (GainInSync(r) <==> s.requestVolume == s.volume)
  {
  }

  /** Moving the slider while narration loads is lost once it arrives:
      playback starts at the old volume while the slider shows the new one,
      until the slider moves or playback restarts (a resume or a seek). */
  lemma VolumeChangedWhileLoadingIsLost(s: Player, v: real, payload: seq<Pcm.Byte>, pressAt: real, arriveAt: real)
    requires Valid(s) && !s.loading && !s.playing && s.track.None?
    requires |payload| > 0 && |payload| % 2 == 0 && v != s.volume
    ensures var pressed := PressPlay(s, true, pressAt);
            var arrived := NarrationArrived(SetVolume(pressed, v), payload, arriveAt);
            && pressed.loading
            && arrived.playing && arrived.volume == v
            && arrived.gain == Some(s.volume)
            && !GainInSync(arrived)
  {
  }

  /** Restarting playback from the current render, by a seek while playing
      or a resume, puts the gain back in step with the slider. */
  lemma RestartResyncsGain(s: Player, fraction: real, now: real, later: real)
    requires Valid(s) && s.playing && !s.loading && now >= s.startedAt
    ensures GainInSync(Seek(s, fraction, now))
    ensures GainInSync(PressPlay(PressPlay(s, true, now), true, later))
  {
  }

  /** The page starts with no gain node, so the gain is trivially in step
      with the slider, and every later handler but the response keeps it so. */
  lemma InitialGainInSync()
    ensures GainInSync(Initial())
    ensures forall e: Event :: !e.NarrationReady? ==> GainInSync(Step(Initial(), e))
  {
    forall e: Event | !e.NarrationReady?
      ensures GainInSync(Step(Initial(), e))
    {
      GainFollowsSlider(Initial(), e);
    }
  }
}
