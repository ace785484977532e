/**
  The activity resolver: which phrase is active at the current playback
  time, which of its segments is highlighted, and the per-segment rows the
  view renders from the four parallel `|`-separated text tracks.
*/
module Activity {
  import opened Wrappers
  import opened JsText
  import opened JsArray
  import opened Timing

  /**
    A prayer phrase. The display-only fields (name, full translation, images)
    are not part of the model. Ids are JavaScript numbers such as 5.2.
  */
  datatype Phrase = Phrase(
    id: real,
    arabic: string,
    transliteration: string,
    phonetics: string,
    translationPerSegment: string,
    videoTimestamp: real,
    duration: real,
    highlightTiming: string)

  /** The phrase's half-open window `[video_timestamp, video_timestamp + duration)`. */
  predicate InWindow(p: Phrase, t: real) {
    p.videoTimestamp <= t < p.videoTimestamp + p.duration
  }

  /** `prayerPhrases.find(...)`: the first phrase, in list order, whose window holds `t`. */
  function ActivePhrase(phrases: seq<Phrase>, t: real): (r: Option<Phrase>)
    ensures r.None? <==> forall k :: 0 <= k < |phrases| ==> !InWindow(phrases[k], t)
    ensures r.Some? ==> exists k :: 0 <= k < |phrases| && phrases[k] == r.value && InWindow(phrases[k], t) &&
                                    forall j :: 0 <= j < k ==> !InWindow(phrases[j], t)
  {
    Find(phrases, p => InWindow(p, t))
  }

  /** `currentActivePhrase ? currentActivePhrase.id : null`. */
  function ActivePhraseId(phrases: seq<Phrase>, t: real): (r: Option<real>)
    ensures r.None? <==> forall k :: 0 <= k < |phrases| ==> !InWindow(phrases[k], t)
  {
    match ActivePhrase(phrases, t)
    case None => None
    case Some(p) => Some(p.id)
  }

  /** The first phrase whose window holds `t` is the active one, whatever follows it. */
  lemma {:induction false} FirstWindowWins(phrases: seq<Phrase>, t: real, i: nat)
    requires i < |phrases| && InWindow(phrases[i], t)
    requires forall j :: 0 <= j < i ==> !InWindow(phrases[j], t)
    ensures ActivePhrase(phrases, t) == Some(phrases[i])
    ensures ActivePhraseId(phrases, t) == Some(phrases[i].id)
  {
    var r := ActivePhrase(phrases, t);
    var k :| 0 <= k < |phrases| && phrases[k] == r.value && InWindow(phrases[k], t) &&
             forall j :: 0 <= j < k ==> !InWindow(phrases[j], t);
    assert k == i;
  }

  /** A phrase is never the active one at the instant its window ends, whatever the other phrases are. */
  lemma WindowEndIsExclusive(phrases: seq<Phrase>, p: Phrase)
    ensures !InWindow(p, p.videoTimestamp + p.duration)
    ensures ActivePhrase(phrases, p.videoTimestamp + p.duration) != Some(p)
  {
  }

  /**
    When no two windows share a time, list order does not matter: the
    active phrase is the phrase whose window holds `t`.
  */
  lemma {:induction false} DisjointWindowsResolveUniquely(phrases: seq<Phrase>, t: real, i: nat)
    requires forall j, k :: 0 <= j < k < |phrases| ==> !(InWindow(phrases[j], t) && InWindow(phrases[k], t))
    requires i < |phrases| && InWindow(phrases[i], t)
    ensures ActivePhrase(phrases, t) == Some(phrases[i])
  {
    assert forall j :: 0 <= j < i ==> !InWindow(phrases[j], t);
    FirstWindowWins(phrases, t, i);
  }

  /**
    The highlighted segment of a rendered phrase: -1 unless this phrase is
    the active one; otherwise the first timing range holding the time
    relative to the phrase's start, or -1.
  */
  function ActiveSegmentIndex(p: Phrase, activeId: Option<real>, now: real): (i: int)
    ensures -1 <= i < |ParseTimings(p.highlightTiming)|
    ensures activeId != Some(p.id) ==> i == -1
    ensures i >= 0 ==>
      Covers(ParseTimings(p.highlightTiming)[i], now - p.videoTimestamp) &&
      forall k :: 0 <= k < i ==> !Covers(ParseTimings(p.highlightTiming)[k], now - p.videoTimestamp)
    ensures activeId == Some(p.id) && i == -1 ==>
      forall k :: 0 <= k < |ParseTimings(p.highlightTiming)| ==>
        !Covers(ParseTimings(p.highlightTiming)[k], now - p.videoTimestamp)
  {
    if activeId == Some(p.id) then
      SegmentIndex(ParseTimings(p.highlightTiming), now - p.videoTimestamp)
    else -1
  }

  /** The highlighted segment of the active phrase, from the segment of its ranges at the time since its start. */
  lemma ActiveSegmentOfActivePhrase(p: Phrase, activeId: Option<real>, now: real, i: int)
    requires activeId == Some(p.id)
    requires SegmentIndex(ParseTimings(p.highlightTiming), now - p.videoTimestamp) == i
    ensures ActiveSegmentIndex(p, activeId, now) == i
  {
  }

  /** One rendered table row: the four tracks at one index and whether it is highlighted. */
  datatype SegmentRow = SegmentRow(
    arabic: string,
    transliteration: string,
    phonetics: string,
    translation: string,
    highlighted: bool)

  /**
    `arabicSegments.map((segment, i) => ...)`: one row per Arabic segment;
    the other tracks are read with `segs[i] || ""`, so a shorter track gives
    empty cells instead of an error.
  */
  function SegmentRows(p: Phrase, activeIndex: int): (rows: seq<SegmentRow>)
    ensures |rows| == |Split(p.arabic, '|')|
    ensures forall i :: 0 <= i < |rows| ==> rows[i].arabic == Split(p.arabic, '|')[i]
    ensures forall i :: 0 <= i < |rows| ==> (rows[i].highlighted <==> i == activeIndex)
    ensures forall i :: 0 <= i < |rows| ==>
      rows[i].transliteration ==
        (if i < |Split(p.transliteration, '|')| then Split(p.transliteration, '|')[i] else "")
    ensures forall i :: 0 <= i < |rows| ==>
      rows[i].phonetics == (if i < |Split(p.phonetics, '|')| then Split(p.phonetics, '|')[i] else "")
    ensures forall i :: 0 <= i < |rows| ==>
      rows[i].translation ==
        (if i < |Split(p.translationPerSegment, '|')| then Split(p.translationPerSegment, '|')[i] else "")
  {
    var arabic := Split(p.arabic, '|');
    var translit := Split(p.transliteration, '|');
    var phonetics := Split(p.phonetics, '|');
    var translation := Split(p.translationPerSegment, '|');
    seq(|arabic|, i requires 0 <= i < |arabic| =>
      SegmentRow(arabic[i], TextAt(translit, i), TextAt(phonetics, i), TextAt(translation, i), i == activeIndex))
  }

  /** At most one row of a phrase is highlighted, and none when the phrase is not active. */
  lemma {:induction false} AtMostOneHighlightedRow(p: Phrase, activeId: Option<real>, now: real, i: nat, j: nat)
    requires i < j < |SegmentRows(p, ActiveSegmentIndex(p, activeId, now))|
    ensures !(SegmentRows(p, ActiveSegmentIndex(p, activeId, now))[i].highlighted &&
              SegmentRows(p, ActiveSegmentIndex(p, activeId, now))[j].highlighted)
    ensures activeId != Some(p.id) ==> !SegmentRows(p, ActiveSegmentIndex(p, activeId, now))[i].highlighted
  {
  }
}
