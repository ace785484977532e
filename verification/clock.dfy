/** `formatTime`: the `m:ss` readout shown next to the play button. */
module Clock {
  import opened JsText
  import opened JsNumbers

  /**
    `isNaN(t) ? "0:00" : `${Math.floor(t / 60)}:${String(Math.floor(t % 60)).padStart(2, "0")}``,
    with `%` truncating toward zero as in JavaScript.
  */
  function FormatTime(t: JsNumber): (s: string)
    ensures t == NaN ==> s == "0:00"
    ensures ':' in s
  {
    match t
    case NaN => "0:00"
    case Num(x) =>
      var minutes := Floor(x / 60.0);
      var seconds := Floor(Rem(x, 60.0));
      IntToString(minutes) + [':'] + PadStart(IntToString(seconds), 2, '0')
  }

  /**
    For a non-negative time the readout is the whole minutes, a colon, and
    the remaining whole seconds as exactly two digits below 60: the
    independent reading "total whole seconds, split into minutes and seconds".
  */
  lemma FormatTimeOfNonNegative(x: real)
    requires x >= 0.0
    ensures var total := Floor(x);
            FormatTime(Num(x)) ==
              NatToString(total / 60) + [':'] + [DigitChar(total % 60 / 10), DigitChar(total % 60 % 10)]
  {
    var total := Floor(x);
    WholeMinutesAndSeconds(x);
    IntToStringOfNat(Floor(x / 60.0));
    assert IntToString(Floor(x / 60.0)) == NatToString(total / 60);
    TwoDigitSeconds(total % 60);
  }

  /** Minutes and seconds of a non-negative time are the quotient and remainder of its whole seconds by 60. */
  lemma WholeMinutesAndSeconds(x: real)
    requires x >= 0.0
    ensures Floor(x / 60.0) == Floor(x) / 60
    ensures Floor(Rem(x, 60.0)) == Floor(x) % 60
  {
    var m := Floor(x / 60.0);
    assert m >= 0;
    assert Trunc(x / 60.0) == m;
    var rem := Rem(x, 60.0);
    assert rem == x - 60.0 * m as real;
    var s := Floor(rem);
    assert 0 <= s < 60;
    assert Floor(x) == 60 * m + s;
  }

  /** The seconds field: two digits, zero-padded below 10. */
  lemma TwoDigitSeconds(s: int)
    requires 0 <= s < 60
    ensures PadStart(IntToString(s), 2, '0') == [DigitChar(s / 10), DigitChar(s % 10)]
  {
    if s < 10 {
      assert IntToString(s) == [DigitChar(s)];
      assert DigitChar(0) == '0';
    } else {
      assert IntToString(s) == NatToString(s / 10) + [DigitChar(s % 10)];
      assert NatToString(s / 10) == [DigitChar(s / 10)];
    }
  }

  /** 65 seconds read "1:05": one minute and a zero-padded five. */
  lemma FormatSixtyFiveSeconds()
    ensures FormatTime(Num(65.0)) == "1:05"
  {
    FormatTimeOfNonNegative(65.0);
    assert Floor(65.0) == 65;
    assert NatToString(1) == "1";
    assert DigitChar(0) == '0' && DigitChar(5) == '5';
  }

  /** 3 seconds read "0:03". */
  lemma FormatThreeSeconds()
    ensures FormatTime(Num(3.0)) == "0:03"
  {
    FormatTimeOfNonNegative(3.0);
    assert Floor(3.0) == 3;
    assert NatToString(0) == "0";
    assert DigitChar(0) == '0' && DigitChar(3) == '3';
  }
}
