/**
  The player state of the page component and the events that change it: the
  play/pause button, the seek slider, the per-phrase preview button, the
  animation-frame tick, the audio element's `loadedmetadata` and `ended`
  events, the settling of `play()` promises, the firing of the preview's
  stop timer, and unmounting.

  Each method is one event together with the re-render it causes and the
  effects that re-render runs: the frame effect re-runs only when
  `isPlaying` changes and the active-phrase effect only when `currentTime`
  changes. Setting a state to the value it already holds re-renders nothing.
*/
module Playback {
  import opened Wrappers
  import opened JsNumbers
  import opened Activity

  /** A `play()` promise not yet settled, and what its handlers will do. */
  datatype PlayRequest =
    | FullPlay                              // from the play/pause button: only a `catch`
    | Preview(phraseId: real, delayMs: real) // from a phrase's button: `then` arms the stop timer

  /** An armed `setTimeout` whose callback stops a preview, with the `play()` request whose `then` armed it. */
  datatype Timer = Timer(request: nat, phraseId: real, delayMs: real)

  class Player {
    /** `prayerPhrases`: never updated after the first render. */
    const phrases: seq<Phrase>

    // React state
    var isPlaying: bool
    var currentTime: real
    var duration: JsNumber
    var activePhraseId: Option<real>

    // refs
    var stopTimeout: Option<nat>   // `stopTimeoutRef.current`
    var frameScheduled: bool       // `animationFrameRef.current !== null`
    var mounted: bool              // `audioRef.current !== null`

    // the host: the audio element, the timer queue and the unsettled promises
    var audioTime: real
    var audioPaused: bool
    var armed: map<nat, Timer>
    var nextTimer: nat
    var pending: map<nat, PlayRequest>
    var nextRequest: nat

    /** Bookkeeping that every event keeps. */
    predicate Valid()
      reads this
    {
      && frameScheduled == (mounted && isPlaying)
      && nextTimer >= 1
      && (forall t :: t in armed ==> 0 < t < nextTimer)
      && (stopTimeout.Some? ==> 0 < stopTimeout.value < nextTimer)
      && (forall q :: q in pending ==> q < nextRequest)
      && (!mounted ==> pending == map[])
    }

    /**
      The element settles its pending `play()` promises in the order the
      calls were made: `q` is the earliest request still pending.
    */
    predicate SettlesNext(q: nat)
      reads this
    {
      q in pending && forall k :: k in pending ==> q <= k
    }

    /**
      The discipline the stop timer is meant to follow: the only timer that
      can still fire is the one the slot names, so clearing the slot's timer
      cancels every pending stop.
    */
    predicate Disciplined()
      reads this
    {
      forall t :: t in armed ==> stopTimeout == Some(t)
    }

    /**
      The first render and the mount effects: the active-phrase effect runs
      once with `currentTime` 0, the frame effect finds nothing to cancel.
    */
    constructor (phrases: seq<Phrase>)
      ensures this.phrases == phrases
      ensures !isPlaying && currentTime == 0.0 && duration == Num(0.0)
      ensures activePhraseId == ActivePhraseId(phrases, 0.0)
      ensures stopTimeout == None && !frameScheduled && mounted
      ensures audioTime == 0.0 && audioPaused
      ensures armed == map[] && pending == map[] && nextTimer == 1 && nextRequest == 0
      ensures Valid() && Disciplined()
    {
      this.phrases := phrases;
      isPlaying := false;
      currentTime := 0.0;
      duration := Num(0.0);
      activePhraseId := ActivePhraseId(phrases, 0.0);
      stopTimeout := None;
      frameScheduled := false;
      mounted := true;
      audioTime := 0.0;
      audioPaused := true;
      armed := map[];
      nextTimer := 1;
      pending := map[];
      nextRequest := 0;
    }

    /**
      `handlePlayPause`. Pausing pauses the element (its pending `play()`
      promises are rejected with an AbortError, which both handlers ignore)
      and leaves any stop timer armed. Playing clears the slot's timer and
      empties the slot, then starts a full play.
    */
    method HandlePlayPause()
      requires Valid()
      modifies this
      ensures Valid()
      ensures !old(mounted) ==> unchanged(this)
      ensures old(mounted) ==> isPlaying == !old(isPlaying) && audioPaused == !isPlaying
      ensures old(mounted) && old(isPlaying) ==>
        pending == map[] && armed == old(armed) && stopTimeout == old(stopTimeout) &&
        nextRequest == old(nextRequest)
      ensures old(mounted) && !old(isPlaying) ==>
        stopTimeout == None &&
        armed == (if old(stopTimeout).Some? then old(armed) - {old(stopTimeout).value} else old(armed)) &&
        pending == old(pending)[old(nextRequest) := FullPlay] && nextRequest == old(nextRequest) + 1
      ensures currentTime == old(currentTime) && activePhraseId == old(activePhraseId)
      ensures audioTime == old(audioTime) && duration == old(duration) && mounted == old(mounted)
      ensures nextTimer == old(nextTimer)
      ensures old(Disciplined()) ==> Disciplined()
      ensures old(mounted) && !old(isPlaying) && old(Disciplined()) ==> armed == map[]
    {
      if !mounted {
        return;
      }
      if isPlaying {
        audioPaused := true;
        pending := map[];
        isPlaying := false;
        frameScheduled := false;
      } else {
        if stopTimeout.Some? {
          armed := armed - {stopTimeout.value};
          stopTimeout := None;
        }
        audioPaused := false;
        pending := pending[nextRequest := FullPlay];
        nextRequest := nextRequest + 1;
        isPlaying := true;
        frameScheduled := true;
      }
    }

    /**
      `handleSeek`: the element and `currentTime` both jump to the slider's
      value; when that value differs from the old `currentTime` the
      active-phrase effect recomputes the active phrase at the new time.
    */
    method HandleSeek(time: real)
      requires Valid()
      modifies this
      ensures Valid()
      ensures !old(mounted) ==> unchanged(this)
      ensures old(mounted) ==> audioTime == time && currentTime == time
      ensures old(mounted) && time != old(currentTime) ==> activePhraseId == ActivePhraseId(phrases, time)
      ensures time == old(currentTime) ==> activePhraseId == old(activePhraseId)
      ensures isPlaying == old(isPlaying) && audioPaused == old(audioPaused) && frameScheduled == old(frameScheduled)
      ensures stopTimeout == old(stopTimeout) && armed == old(armed) && pending == old(pending)
      ensures nextTimer == old(nextTimer) && nextRequest == old(nextRequest)
      ensures duration == old(duration) && mounted == old(mounted)
    {
      if !mounted {
        return;
      }
      audioTime := time;
      if time != currentTime {
        currentTime := time;
        activePhraseId := ActivePhraseId(phrases, time);
      }
    }

    /**
      `handlePlayPhrase`: clears the slot's timer but leaves its id in the
      slot, jumps the element to the phrase's start, plays, and marks the
      phrase active at once. `currentTime` is not touched, so the
      active-phrase effect does not run until a tick moves it.
    */
    method HandlePlayPhrase(p: Phrase)
      requires Valid()
      modifies this
      ensures Valid()
      ensures !old(mounted) ==> unchanged(this)
      ensures old(mounted) ==>
        isPlaying && activePhraseId == Some(p.id) && audioTime == p.videoTimestamp && !audioPaused &&
        pending == old(pending)[old(nextRequest) := Preview(p.id, p.duration * 1000.0)] &&
        nextRequest == old(nextRequest) + 1 &&
        armed == (if old(stopTimeout).Some? then old(armed) - {old(stopTimeout).value} else old(armed))
      ensures stopTimeout == old(stopTimeout) && currentTime == old(currentTime)
      ensures duration == old(duration) && mounted == old(mounted) && nextTimer == old(nextTimer)
      ensures old(Disciplined()) ==> Disciplined()
      ensures old(mounted) && old(Disciplined()) ==> armed == map[]
    {
      if !mounted {
        return;
      }
      if stopTimeout.Some? {
        armed := armed - {stopTimeout.value};
      }
      audioTime := p.videoTimestamp;
      audioPaused := false;
      pending := pending[nextRequest := Preview(p.id, p.duration * 1000.0)];
      nextRequest := nextRequest + 1;
      isPlaying := true;
      frameScheduled := true;
      activePhraseId := Some(p.id);
    }

    /**
      A `play()` promise resolves. A full play has no `then`; a preview's
      `then` arms a timer for the phrase's duration and stores its id in the
      slot, overwriting whatever id the slot held without clearing it.
    */
    method ResolvePlay(q: nat)
      requires Valid() && SettlesNext(q)
      modifies this
      ensures Valid()
      ensures pending == old(pending) - {q}
      ensures old(pending)[q].FullPlay? ==>
        armed == old(armed) && stopTimeout == old(stopTimeout) && nextTimer == old(nextTimer)
      ensures old(pending)[q].Preview? ==>
        var r := old(pending)[q];
        armed == old(armed)[old(nextTimer) := Timer(q, r.phraseId, r.delayMs)] &&
        stopTimeout == Some(old(nextTimer)) && nextTimer == old(nextTimer) + 1
      ensures isPlaying == old(isPlaying) && currentTime == old(currentTime) && activePhraseId == old(activePhraseId)
      ensures audioTime == old(audioTime) && audioPaused == old(audioPaused) && frameScheduled == old(frameScheduled)
      ensures duration == old(duration) && mounted == old(mounted) && nextRequest == old(nextRequest)
    {
      var r := pending[q];
      pending := pending - {q};
      if r.Preview? {
        armed := armed[nextTimer := Timer(q, r.phraseId, r.delayMs)];
        stopTimeout := Some(nextTimer);
        nextTimer := nextTimer + 1;
      }
    }

    /**
      A `play()` promise is rejected. An AbortError is ignored. Any other
      error means the element did not start: the full play's `catch` clears
      `isPlaying`, the preview's also clears the active phrase.
    */
    method RejectPlay(q: nat, abort: bool)
      requires Valid() && SettlesNext(q)
      modifies this
      ensures Valid()
      ensures pending == old(pending) - {q}
      ensures abort ==> isPlaying == old(isPlaying) && activePhraseId == old(activePhraseId) && audioPaused == old(audioPaused)
      ensures !abort ==> !isPlaying && audioPaused
      ensures !abort && old(pending)[q].Preview? ==> activePhraseId == None
      ensures old(pending)[q].FullPlay? ==> activePhraseId == old(activePhraseId)
      ensures armed == old(armed) && stopTimeout == old(stopTimeout) && nextTimer == old(nextTimer)
      ensures currentTime == old(currentTime) && audioTime == old(audioTime)
      ensures duration == old(duration) && mounted == old(mounted) && nextRequest == old(nextRequest)
      ensures old(Disciplined()) ==> Disciplined()
    {
      var r := pending[q];
      pending := pending - {q};
      if !abort {
        audioPaused := true;
        isPlaying := false;
        frameScheduled := false;
        if r.Preview? {
          activePhraseId := None;
        }
      }
    }

    /**
      An armed stop timer fires. While the element exists its callback
      pauses it, clears `isPlaying` and the active phrase, and empties the
      slot, whichever preview armed it.
    */
    method FireTimer(t: nat)
      requires Valid() && t in armed
      modifies this
      ensures Valid()
      ensures armed == old(armed) - {t}
      ensures old(mounted) ==>
        !isPlaying && audioPaused && activePhraseId == None && stopTimeout == None && pending == map[]
      ensures !old(mounted) ==>
        isPlaying == old(isPlaying) && audioPaused == old(audioPaused) && activePhraseId == old(activePhraseId) &&
        stopTimeout == old(stopTimeout) && pending == old(pending)
      ensures currentTime == old(currentTime) && audioTime == old(audioTime) && duration == old(duration)
      ensures mounted == old(mounted) && nextTimer == old(nextTimer) && nextRequest == old(nextRequest)
      ensures old(Disciplined()) ==> Disciplined() && armed == map[]
    {
      armed := armed - {t};
      if mounted {
        audioPaused := true;
        pending := map[];
        isPlaying := false;
        frameScheduled := false;
        activePhraseId := None;
        stopTimeout := None;
      }
    }

    /**
      The element's `ended` event: it has paused itself at the end (rejecting
      any pending `play()` with an AbortError) and the listener clears
      `isPlaying` and the active phrase. Stop timers are left as they are.
    */
    method Ended()
      requires Valid()
      modifies this
      ensures Valid()
      ensures !old(mounted) ==> unchanged(this)
      ensures old(mounted) ==> !isPlaying && audioPaused && activePhraseId == None && pending == map[]
      ensures currentTime == old(currentTime) && audioTime == old(audioTime) && duration == old(duration)
      ensures armed == old(armed) && stopTimeout == old(stopTimeout) && nextTimer == old(nextTimer)
      ensures mounted == old(mounted) && nextRequest == old(nextRequest)
      ensures old(Disciplined()) ==> Disciplined()
    {
      if !mounted {
        return;
      }
      audioPaused := true;
      pending := map[];
      isPlaying := false;
      frameScheduled := false;
      activePhraseId := None;
    }

    /** The element's `loadedmetadata` event: `duration` takes the element's duration. */
    method LoadedMetadata(d: JsNumber)
      requires Valid()
      modifies this
      ensures Valid()
      ensures !old(mounted) ==> unchanged(this)
      ensures old(mounted) ==> duration == d
      ensures isPlaying == old(isPlaying) && currentTime == old(currentTime) && activePhraseId == old(activePhraseId)
      ensures audioTime == old(audioTime) && audioPaused == old(audioPaused) && frameScheduled == old(frameScheduled)
      ensures armed == old(armed) && stopTimeout == old(stopTimeout) && pending == old(pending)
      ensures mounted == old(mounted) && nextTimer == old(nextTimer) && nextRequest == old(nextRequest)
    {
      if mounted {
        duration := d;
      }
    }

    /** The host's clock: a playing element's position moves forward; a paused one stays. */
    method AdvanceAudio(dt: real)
      requires Valid() && dt >= 0.0
      modifies this
      ensures Valid()
      ensures audioTime == if old(audioPaused) then old(audioTime) else old(audioTime) + dt
      ensures isPlaying == old(isPlaying) && currentTime == old(currentTime) && activePhraseId == old(activePhraseId)
      ensures audioPaused == old(audioPaused) && frameScheduled == old(frameScheduled) && duration == old(duration)
      ensures armed == old(armed) && stopTimeout == old(stopTimeout) && pending == old(pending)
      ensures mounted == old(mounted) && nextTimer == old(nextTimer) && nextRequest == old(nextRequest)
    {
      if !audioPaused {
        audioTime := audioTime + dt;
      }
    }

    /**
      The `animate` frame callback, when a frame is scheduled: `currentTime`
      takes the element's position and the next frame is requested; if that
      moved `currentTime`, the active-phrase effect recomputes the active
      phrase.
    */
    method Tick()
      requires Valid()
      modifies this
      ensures Valid()
      ensures !old(frameScheduled) ==> unchanged(this)
      ensures old(frameScheduled) ==> currentTime == audioTime && frameScheduled
      ensures old(frameScheduled) && audioTime != old(currentTime) ==>
        activePhraseId == ActivePhraseId(phrases, audioTime)
      ensures audioTime == old(currentTime) ==> activePhraseId == old(activePhraseId)
      ensures isPlaying == old(isPlaying) && audioTime == old(audioTime) && audioPaused == old(audioPaused)
      ensures armed == old(armed) && stopTimeout == old(stopTimeout) && pending == old(pending)
      ensures duration == old(duration) && mounted == old(mounted)
      ensures nextTimer == old(nextTimer) && nextRequest == old(nextRequest)
    {
      if !frameScheduled {
        return;
      }
      if audioTime != currentTime {
        currentTime := audioTime;
        activePhraseId := ActivePhraseId(phrases, audioTime);
      }
    }

    /**
      Unmounting: the frame effect's cleanup cancels the frame; the listener
      effect's cleanup clears the slot's timer (leaving the id in the slot).
      The element leaves the document and pauses, rejecting pending
      `play()` promises with an AbortError. React state no longer changes.
    */
    method Unmount()
      requires Valid()
      modifies this
      ensures Valid()
      ensures !old(mounted) ==> unchanged(this)
      ensures old(mounted) ==>
        !mounted && !frameScheduled && audioPaused && pending == map[] &&
        armed == (if stopTimeout.Some? then old(armed) - {stopTimeout.value} else old(armed))
      ensures isPlaying == old(isPlaying) && currentTime == old(currentTime) && activePhraseId == old(activePhraseId)
      ensures stopTimeout == old(stopTimeout) && audioTime == old(audioTime) && duration == old(duration)
      ensures nextTimer == old(nextTimer) && nextRequest == old(nextRequest)
      ensures old(Disciplined()) ==> Disciplined()
      ensures old(mounted) && old(Disciplined()) ==> armed == map[]
    {
      if !mounted {
        return;
      }
      frameScheduled := false;
      if stopTimeout.Some? {
        armed := armed - {stopTimeout.value};
      }
      audioPaused := true;
      pending := map[];
      mounted := false;
    }

    /**
      `ResolvePlay` with the slot's timer cleared before the new one is
      armed: the same as `ResolvePlay` except that no timer is left behind.
    */
    method ResolvePlayFixed(q: nat)
      requires Valid() && SettlesNext(q)
      modifies this
      ensures Valid()
      ensures pending == old(pending) - {q}
      ensures old(pending)[q].FullPlay? ==>
        armed == old(armed) && stopTimeout == old(stopTimeout) && nextTimer == old(nextTimer)
      ensures old(pending)[q].Preview? ==>
        var r := old(pending)[q];
        armed == (if old(stopTimeout).Some? then old(armed) - {old(stopTimeout).value} else old(armed))
                   [old(nextTimer) := Timer(q, r.phraseId, r.delayMs)] &&
        stopTimeout == Some(old(nextTimer)) && nextTimer == old(nextTimer) + 1
      ensures isPlaying == old(isPlaying) && currentTime == old(currentTime) && activePhraseId == old(activePhraseId)
      ensures audioTime == old(audioTime) && audioPaused == old(audioPaused) && frameScheduled == old(frameScheduled)
      ensures duration == old(duration) && mounted == old(mounted) && nextRequest == old(nextRequest)
      ensures old(Disciplined()) ==> Disciplined()
      ensures old(Disciplined()) && old(pending)[q].Preview? ==>
        var r := old(pending)[q];
        armed == map[old(nextTimer) := Timer(q, r.phraseId, r.delayMs)]
      ensures forall k :: k in pending ==> q < k
    {
      var r := pending[q];
      pending := pending - {q};
      if r.Preview? {
        if stopTimeout.Some? {
          armed := armed - {stopTimeout.value};
        }
        armed := armed[nextTimer := Timer(q, r.phraseId, r.delayMs)];
        stopTimeout := Some(nextTimer);
        nextTimer := nextTimer + 1;
      }
    }
  }
}
