/**
  Event sequences on the player, with the first two entries of the phrase
  table: Takbir (id 1, 2 s) and Subhanaka (id 2, 12 s).

  Previewing Takbir and then Subhanaka before Takbir's `play()` has settled
  makes both promises resolve, and each `then` arms a stop timer. Takbir's
  timer is never cleared: it stops Subhanaka 2 s in, and by emptying the
  slot it leaves Subhanaka's own timer out of reach of the play button,
  which then cuts a full play short.
*/
module PlaybackScenarios {
  import opened Wrappers
  import opened Activity
  import opened PhraseTable
  import opened Playback

  /** Takbir's preview button, then Subhanaka's, before either `play()` settles. */
  method TwoPreviews(phrases: seq<Phrase>) returns (p: Player)
    ensures fresh(p)
    ensures p.Valid() && p.Disciplined() && p.mounted
    ensures p.isPlaying && p.activePhraseId == Some(2.0) && p.audioTime == 7.0
    ensures p.pending == map[0 := Preview(1.0, 2000.0), 1 := Preview(2.0, 12000.0)]
    ensures p.armed == map[] && p.stopTimeout == None && p.nextTimer == 1 && p.nextRequest == 2
  {
    p := new Player(phrases);
    p.HandlePlayPhrase(Takbir);
    p.HandlePlayPhrase(Subhanaka);
  }

  /** Both previews' promises resolve: two stop timers are armed, the slot names only the second. */
  method PreviewRace(phrases: seq<Phrase>) returns (p: Player)
    ensures fresh(p)
    ensures p.Valid() && !p.Disciplined()
    ensures p.isPlaying && p.activePhraseId == Some(2.0)
    ensures p.armed == map[1 := Timer(0, 1.0, 2000.0), 2 := Timer(1, 2.0, 12000.0)]
    ensures p.stopTimeout == Some(2)
    ensures p.mounted && p.nextRequest == 2
  {
    p := TwoPreviews(phrases);
    p.ResolvePlay(0);
    p.ResolvePlay(1);
  }

  /**
    Takbir's timer fires: Subhanaka's preview stops after Takbir's duration,
    the slot is emptied, and Subhanaka's timer stays armed.
  */
  method StaleTimerStopsPreview(phrases: seq<Phrase>) returns (p: Player)
    ensures fresh(p)
    ensures p.Valid() && !p.Disciplined()
    ensures !p.isPlaying && p.audioPaused && p.activePhraseId == None && p.pending == map[]
    ensures p.stopTimeout == None && p.armed == map[2 := Timer(1, 2.0, 12000.0)]
    ensures p.mounted && p.nextRequest == 2
  {
    p := PreviewRace(phrases);
    p.FireTimer(1);
    assert 2 in p.armed;
  }

  /**
    The play button starts a full play; it clears only the slot's timer, and
    the slot is empty, so Subhanaka's timer is still armed.
  */
  method FullPlayKeepsStrayTimer(phrases: seq<Phrase>) returns (p: Player)
    ensures fresh(p)
    ensures p.Valid() && !p.Disciplined()
    ensures p.isPlaying && !p.audioPaused && p.pending == map[2 := FullPlay]
    ensures p.armed == map[2 := Timer(1, 2.0, 12000.0)]
    ensures p.mounted
  {
    p := StaleTimerStopsPreview(phrases);
    p.HandlePlayPause();
    assert 2 in p.armed;
  }

  /** The stray timer fires and pauses the full play. */
  method StrayTimerStopsFullPlay(phrases: seq<Phrase>) returns (p: Player)
    ensures fresh(p)
    ensures p.Valid() && p.Disciplined()
    ensures !p.isPlaying && p.audioPaused && p.activePhraseId == None && p.armed == map[]
  {
    p := FullPlayKeepsStrayTimer(phrases);
    p.FireTimer(2);
  }

  /**
    With the corrected `then`, the same race leaves only the timer of the
    latest preview request (request 1, Subhanaka) armed.
  */
  method FixedPreviewRace(phrases: seq<Phrase>) returns (p: Player)
    ensures fresh(p)
    ensures p.Valid() && p.Disciplined()
    ensures p.isPlaying && p.activePhraseId == Some(2.0)
    ensures p.armed == map[2 := Timer(1, 2.0, 12000.0)] && p.stopTimeout == Some(2)
    ensures p.pending == map[] && p.nextRequest == 2
    ensures p.mounted
  {
    p := TwoPreviews(phrases);
    p.ResolvePlayFixed(0);
    p.ResolvePlayFixed(1);
  }

  /**
    With the corrected `then`, Subhanaka's preview ends on its own timer and
    a full play started afterwards has no stop timer left to cut it short.
  */
  method FixedFullPlayRunsOn(phrases: seq<Phrase>) returns (p: Player)
    ensures fresh(p)
    ensures p.Valid() && p.Disciplined()
    ensures p.isPlaying && !p.audioPaused && p.armed == map[] && p.stopTimeout == None
  {
    p := FixedPreviewRace(phrases);
    p.FireTimer(2);
    p.HandlePlayPause();
  }
}
