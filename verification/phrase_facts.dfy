/** What the resolver does with the sample entries of the phrase table. */
module PhraseFacts {
  import opened Wrappers
  import opened JsText
  import opened Timing
  import opened Activity
  import opened TimingLiterals
  import opened PhraseTable

  /** The numerals the sample timings use. */
  lemma Numerals()
    ensures NatToString(0) == "0" && NatToString(1) == "1" && NatToString(2) == "2"
    ensures NatToString(3) == "3" && NatToString(4) == "4" && NatToString(5) == "5"
    ensures NatToString(7) == "7" && NatToString(8) == "8" && NatToString(11) == "11"
    ensures NatToString(35) == "35" && NatToString(60) == "60"
    ensures NatToString(69) == "69" && NatToString(70) == "70" && NatToString(71) == "71"
  {
  }

  lemma TakbirPiece0()
    ensures RangeText(TakbirLiterals[0]) == "0.0-2.5"
  {
    Numerals();
  }

  lemma TakbirPiecesText()
    ensures TakbirPieces() == ["0.0-2.5"]
  {
    var rs := TakbirLiterals;
    assert TakbirPieces() == [RangeText(rs[0])];
    TakbirPiece0();
  }

  lemma TakbirText()
    ensures TimingText(TakbirLiterals) == TakbirTiming
  {
    TakbirPiecesText();
  }

  lemma TakbirTimings()
    ensures ParseTimings(TakbirTiming) == [Range(0.0, 2.5)]
  {
    TakbirText();
    assert Ranges(TakbirLiterals) == [Range(0.0, 2.5)];
    TimingsOfLiterals(TakbirTiming, TakbirLiterals);
  }

  lemma SubhanakaPiece0()
    ensures RangeText(SubhanakaLiterals[0]) == "0.0-2.4"
  {
    Numerals();
  }

  lemma SubhanakaPiece1()
    ensures RangeText(SubhanakaLiterals[1]) == "2.4-4.0"
  {
    Numerals();
  }

  lemma SubhanakaPiece2()
    ensures RangeText(SubhanakaLiterals[2]) == "4.0-5.60"
  {
    Numerals();
  }

  lemma SubhanakaPiece3()
    ensures RangeText(SubhanakaLiterals[3]) == "5.60-7.35"
  {
    Numerals();
  }

  lemma SubhanakaPiece4()
    ensures RangeText(SubhanakaLiterals[4]) == "7.35-11"
  {
    Numerals();
  }

  lemma SubhanakaPiecesText()
    ensures SubhanakaPieces() == ["0.0-2.4", "2.4-4.0", "4.0-5.60", "5.60-7.35", "7.35-11"]
  {
    var rs := SubhanakaLiterals;
    assert SubhanakaPieces() == [RangeText(rs[0]), RangeText(rs[1]), RangeText(rs[2]), RangeText(rs[3]), RangeText(rs[4])];
    SubhanakaPiece0();
    SubhanakaPiece1();
    SubhanakaPiece2();
    SubhanakaPiece3();
    SubhanakaPiece4();
  }

  lemma SubhanakaJoined()
    ensures "0.0-2.4" + ['|'] + "2.4-4.0" + ['|'] + "4.0-5.60" + ['|'] + "5.60-7.35" + ['|'] + "7.35-11" == SubhanakaTiming
  {
  }

  lemma SubhanakaText()
    ensures TimingText(SubhanakaLiterals) == SubhanakaTiming
  {
    assert TimingText(SubhanakaLiterals) == Join(SubhanakaPieces(), '|');
    SubhanakaPiecesText();
    JoinFive("0.0-2.4", "2.4-4.0", "4.0-5.60", "5.60-7.35", "7.35-11", '|');
    SubhanakaJoined();
  }

  lemma SubhanakaTimings()
    ensures ParseTimings(SubhanakaTiming) == [Range(0.0, 2.4), Range(2.4, 4.0), Range(4.0, 5.6), Range(5.6, 7.35), Range(7.35, 11.0)]
  {
    SubhanakaText();
    assert Ranges(SubhanakaLiterals) == [Range(0.0, 2.4), Range(2.4, 4.0), Range(4.0, 5.6), Range(5.6, 7.35), Range(7.35, 11.0)];
    TimingsOfLiterals(SubhanakaTiming, SubhanakaLiterals);
  }

  lemma Quraysh3Piece0()
    ensures RangeText(Quraysh3Literals[0]) == "0.0-1.3"
  {
    Numerals();
  }

  lemma Quraysh3Piece1()
    ensures RangeText(Quraysh3Literals[1]) == "1.3-2.2"
  {
    Numerals();
  }

  lemma Quraysh3Piece2()
    ensures RangeText(Quraysh3Literals[2]) == "2.2-2.8"
  {
    Numerals();
  }

  lemma Quraysh3Piece3()
    ensures RangeText(Quraysh3Literals[3]) == "2.2-3.5"
  {
    Numerals();
  }

  lemma Quraysh3Piece4()
    ensures RangeText(Quraysh3Literals[4]) == "3.5-5.0"
  {
    Numerals();
  }

  lemma Quraysh3PiecesText()
    ensures Quraysh3Pieces() == ["0.0-1.3", "1.3-2.2", "2.2-2.8", "2.2-3.5", "3.5-5.0"]
  {
    var rs := Quraysh3Literals;
    assert Quraysh3Pieces() == [RangeText(rs[0]), RangeText(rs[1]), RangeText(rs[2]), RangeText(rs[3]), RangeText(rs[4])];
    Quraysh3Piece0();
    Quraysh3Piece1();
    Quraysh3Piece2();
    Quraysh3Piece3();
    Quraysh3Piece4();
  }

  lemma Quraysh3Joined()
    ensures "0.0-1.3" + ['|'] + "1.3-2.2" + ['|'] + "2.2-2.8" + ['|'] + "2.2-3.5" + ['|'] + "3.5-5.0" == Quraysh3Timing
  {
  }

  lemma Quraysh3Text()
    ensures TimingText(Quraysh3Literals) == Quraysh3Timing
  {
    assert TimingText(Quraysh3Literals) == Join(Quraysh3Pieces(), '|');
    Quraysh3PiecesText();
    JoinFive("0.0-1.3", "1.3-2.2", "2.2-2.8", "2.2-3.5", "3.5-5.0", '|');
    Quraysh3Joined();
  }

  lemma Quraysh3Timings()
    ensures ParseTimings(Quraysh3Timing) == [Range(0.0, 1.3), Range(1.3, 2.2), Range(2.2, 2.8), Range(2.2, 3.5), Range(3.5, 5.0)]
  {
    Quraysh3Text();
    assert Ranges(Quraysh3Literals) == [Range(0.0, 1.3), Range(1.3, 2.2), Range(2.2, 2.8), Range(2.2, 3.5), Range(3.5, 5.0)];
    TimingsOfLiterals(Quraysh3Timing, Quraysh3Literals);
  }

  lemma TakbirToRukuPiece0()
    ensures RangeText(TakbirToRukuLiterals[0]) == "69-70"
  {
    Numerals();
  }

  lemma TakbirToRukuPiece1()
    ensures RangeText(TakbirToRukuLiterals[1]) == "70-71"
  {
    Numerals();
  }

  lemma TakbirToRukuPiecesText()
    ensures TakbirToRukuPieces() == ["69-70", "70-71"]
  {
    var rs := TakbirToRukuLiterals;
    assert TakbirToRukuPieces() == [RangeText(rs[0]), RangeText(rs[1])];
    TakbirToRukuPiece0();
    TakbirToRukuPiece1();
  }

  lemma TakbirToRukuText()
    ensures TimingText(TakbirToRukuLiterals) == TakbirToRukuTiming
  {
    TakbirToRukuPiecesText();
    assert Join(["69-70", "70-71"], '|') == "69-70" + ['|'] + Join(["70-71"], '|');
  }

  lemma TakbirToRukuTimings()
    ensures ParseTimings(TakbirToRukuTiming) == [Range(69.0, 70.0), Range(70.0, 71.0)]
  {
    TakbirToRukuText();
    assert Ranges(TakbirToRukuLiterals) == [Range(69.0, 70.0), Range(70.0, 71.0)];
    TimingsOfLiterals(TakbirToRukuTiming, TakbirToRukuLiterals);
  }

  lemma TakbirRangeCovers(rs: seq<TimingRange>, rel: real)
    requires rs == [Range(0.0, 2.5)] && 0.0 <= rel < 2.0
    ensures SegmentIndex(rs, rel) == 0
  {
    FirstCoveringRangeWins(rs, rel, 0);
  }

  lemma SubhanakaSecondRange(rs: seq<TimingRange>, rel: real)
    requires rs == [Range(0.0, 2.4), Range(2.4, 4.0), Range(4.0, 5.6), Range(5.6, 7.35), Range(7.35, 11.0)]
    requires 2.4 <= rel < 4.0
    ensures SegmentIndex(rs, rel) == 1
  {
    FirstCoveringRangeWins(rs, rel, 1);
  }

  lemma SubhanakaPastLastRange(rs: seq<TimingRange>, rel: real)
    requires rs == [Range(0.0, 2.4), Range(2.4, 4.0), Range(4.0, 5.6), Range(5.6, 7.35), Range(7.35, 11.0)]
    requires 11.0 <= rel
    ensures SegmentIndex(rs, rel) == -1
  {
  }

  lemma Quraysh3ThirdRange(rs: seq<TimingRange>, rel: real)
    requires rs == [Range(0.0, 1.3), Range(1.3, 2.2), Range(2.2, 2.8), Range(2.2, 3.5), Range(3.5, 5.0)]
    requires 2.2 <= rel < 2.8
    ensures SegmentIndex(rs, rel) == 2
  {
    FirstCoveringRangeWins(rs, rel, 2);
  }

  lemma TakbirToRukuRangesMiss(rs: seq<TimingRange>, rel: real)
    requires rs == [Range(69.0, 70.0), Range(70.0, 71.0)]
    requires rel < 69.0
    ensures SegmentIndex(rs, rel) == -1
  {
  }

  /** Throughout its window Takbir is the active phrase... */
  lemma TakbirActive(now: real)
    requires 5.0 <= now < 7.0
    ensures ActivePhraseId(Table, now) == Some(1.0)
  {
    FirstWindowWins(Table, now, 0);
  }

  /** ...and its single segment is the highlighted row. */
  lemma TakbirSegment(now: real)
    requires 5.0 <= now < 7.0
    ensures ActiveSegmentIndex(Takbir, ActivePhraseId(Table, now), now) == 0
  {
    TakbirActive(now);
    TakbirRow(ActivePhraseId(Table, now), now);
  }

  lemma TakbirRow(active: Option<real>, now: real)
    requires active == Some(1.0) && 5.0 <= now < 7.0
    ensures ActiveSegmentIndex(Takbir, active, now) == 0
  {
    TakbirTimings();
    TakbirRangeCovers(ParseTimings(TakbirTiming), now - 5.0);
    ActiveSegmentOfActivePhrase(Takbir, active, now, 0);
  }

  /** Before the first window nothing is active. */
  lemma NothingActiveBeforeTakbir(now: real)
    requires now < 5.0
    ensures ActivePhraseId(Table, now) == None
  {
    assert forall k :: 0 <= k < |Table| ==> !InWindow(Table[k], now);
  }

  /** At 7 s Takbir's window has ended (it is half-open) and Subhanaka's has begun. */
  lemma HandOverAtSeven()
    ensures !InWindow(Takbir, 7.0)
    ensures ActivePhraseId(Table, 7.0) == Some(2.0)
  {
    FirstWindowWins(Table, 7.0, 1);
  }

  /** Subhanaka is active for its whole 12 s window. */
  lemma SubhanakaActive(now: real)
    requires 7.0 <= now < 19.0
    ensures ActivePhraseId(Table, now) == Some(2.0)
  {
    FirstWindowWins(Table, now, 1);
  }

  /** From 2.4 s to 4 s into Subhanaka (which starts at 7 s), the second row is highlighted. */
  lemma SubhanakaSecondSegment(now: real)
    requires 9.4 <= now < 11.0
    ensures ActiveSegmentIndex(Subhanaka, ActivePhraseId(Table, now), now) == 1
  {
    SubhanakaActive(now);
    SubhanakaSecondRow(ActivePhraseId(Table, now), now);
  }

  lemma SubhanakaSecondRow(active: Option<real>, now: real)
    requires active == Some(2.0) && 9.4 <= now < 11.0
    ensures ActiveSegmentIndex(Subhanaka, active, now) == 1
  {
    SubhanakaTimings();
    SubhanakaSecondRange(ParseTimings(SubhanakaTiming), now - 7.0);
    ActiveSegmentOfActivePhrase(Subhanaka, active, now, 1);
  }

  /**
    The last Subhanaka range ends 11 s in, but the window lasts 12 s: in the
    final second the phrase is active and no row is highlighted.
  */
  lemma SubhanakaTailUnlit(now: real)
    requires 18.0 <= now < 19.0
    ensures ActiveSegmentIndex(Subhanaka, ActivePhraseId(Table, now), now) == -1
  {
    SubhanakaActive(now);
    SubhanakaTailRow(ActivePhraseId(Table, now), now);
  }

  lemma SubhanakaTailRow(active: Option<real>, now: real)
    requires active == Some(2.0) && 18.0 <= now < 19.0
    ensures ActiveSegmentIndex(Subhanaka, active, now) == -1
  {
    SubhanakaTimings();
    SubhanakaPastLastRange(ParseTimings(SubhanakaTiming), now - 7.0);
    ActiveSegmentOfActivePhrase(Subhanaka, active, now, -1);
  }

  /** Quraysh 3 (58 s to 61.4 s) is active... */
  lemma Quraysh3Active(now: real)
    requires 58.0 <= now < 61.4
    ensures ActivePhraseId(Table, now) == Some(11.0)
  {
    FirstWindowWins(Table, now, 2);
  }

  /**
    ...and lists two ranges starting at 2.2 s; while both cover the time
    the earlier one, the third row, is highlighted.
  */
  lemma Quraysh3OverlapPicksEarlier(now: real)
    requires 60.2 <= now < 60.8
    ensures ActiveSegmentIndex(Quraysh3, ActivePhraseId(Table, now), now) == 2
  {
    Quraysh3Active(now);
    Quraysh3ThirdRow(ActivePhraseId(Table, now), now);
  }

  lemma Quraysh3ThirdRow(active: Option<real>, now: real)
    requires active == Some(11.0) && 60.2 <= now < 60.8
    ensures ActiveSegmentIndex(Quraysh3, active, now) == 2
  {
    Quraysh3Timings();
    Quraysh3ThirdRange(ParseTimings(Quraysh3Timing), now - 58.0);
    ActiveSegmentOfActivePhrase(Quraysh3, active, now, 2);
  }

  /**
    Quraysh 4's window ends at 69.3 s, after the second "Allahu Akbar"
    starts at 69 s; the earlier entry in the list wins the overlap.
  */
  lemma Quraysh4HoldsOverlap(now: real)
    requires 69.0 <= now < 69.3
    ensures InWindow(TakbirToRuku, now)
    ensures ActivePhraseId(Table, now) == Some(12.0)
  {
    FirstWindowWins(Table, now, 3);
  }

  /** The second "Allahu Akbar" is active from the end of Quraysh 4 to the end of its own window... */
  lemma TakbirToRukuActive(now: real)
    requires 69.3 <= now < 71.0
    ensures ActivePhraseId(Table, now) == Some(13.0)
  {
    FirstWindowWins(Table, now, 4);
  }

  /**
    ...but writes its ranges in absolute seconds (69-71) while the time since
    its start stays below its 2 s duration: during its window no row of it
    is ever highlighted, whichever phrase is active.
  */
  lemma TakbirToRukuNeverLit(now: real)
    requires 69.0 <= now < 71.0
    ensures ActiveSegmentIndex(TakbirToRuku, ActivePhraseId(Table, now), now) == -1
  {
    if now < 69.3 {
      Quraysh4HoldsOverlap(now);
    } else {
      TakbirToRukuActive(now);
      TakbirToRukuRow(ActivePhraseId(Table, now), now);
    }
  }

  lemma TakbirToRukuRow(active: Option<real>, now: real)
    requires active == Some(13.0) && 69.0 <= now < 71.0
    ensures ActiveSegmentIndex(TakbirToRuku, active, now) == -1
  {
    TakbirToRukuTimings();
    assert ParseTimings(TakbirToRukuTiming)[0] == Range(69.0, 70.0);
    assert ParseTimings(TakbirToRukuTiming)[1] == Range(70.0, 71.0);
    TakbirToRukuRangesMiss(ParseTimings(TakbirToRukuTiming), now - 69.0);
    ActiveSegmentOfActivePhrase(TakbirToRuku, active, now, -1);
  }
}
