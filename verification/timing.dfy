/**
  The per-phrase `highlight_timing` string: pieces separated by `|`, each
  piece `start-end` in seconds relative to the phrase's own start, and the
  index of the segment that is being spoken.
*/
module Timing {
  import opened Wrappers
  import opened JsText
  import opened JsNumbers
  import opened JsArray

  /**
    `{ start, end }` from `const [start, end] = piece.split("-").map(Number)`.
    The split always yields a first part, so `start` is always a number (maybe
    NaN); `end` is `undefined` (`None`) when the piece has no dash.
  */
  datatype TimingRange = TimingRange(start: JsNumber, end: Option<JsNumber>)

  function ParseRange(piece: string): (r: TimingRange)
    ensures '-' !in piece ==> r.end == None
  {
    var parts := Split(piece, '-');
    TimingRange(ParseNumber(parts[0]), if |parts| >= 2 then Some(ParseNumber(parts[1])) else None)
  }

  /**
    `rel >= timing.start && rel < timing.end`. Comparing with NaN or with
    `undefined` is false, so such a range covers no time at all.
  */
  predicate Covers(r: TimingRange, rel: real) {
    AtLeast(rel, r.start) && r.end.Some? && Below(rel, r.end.value)
  }

  /** `highlight_timing.split("|").map(...)`: one range per piece. */
  function ParseTimings(timing: string): (ranges: seq<TimingRange>)
    ensures |ranges| == multiset(timing)['|'] + 1
  {
    var pieces := Split(timing, '|');
    seq(|pieces|, i requires 0 <= i < |pieces| => ParseRange(pieces[i]))
  }

  /** A piece `a-b` (neither part holding a dash) yields `Number(a)` and `Number(b)`. */
  lemma RangeOfBounds(a: string, b: string)
    requires '-' !in a && '-' !in b
    ensures ParseRange(a + ['-'] + b) == TimingRange(ParseNumber(a), Some(ParseNumber(b)))
  {
    assert Join([a, b], '-') == a + ['-'] + b by {
      assert [a, b][1..] == [b];
    }
    SplitJoin([a, b], '-');
  }

  /** A leading minus is a separator: `"-b"` reads as start `Number("") = 0`. */
  lemma LeadingMinusReadsAsZero(b: string)
    requires '-' !in b
    ensures ParseRange(['-'] + b) == TimingRange(Num(0.0), Some(ParseNumber(b)))
  {
    RangeOfBounds([], b);
    assert [] + ['-'] + b == ['-'] + b;
  }

  /**
    A piece without a dash, or with a bound that is not a number, gives a
    range that no relative time satisfies.
  */
  lemma MalformedRangeCoversNothing(piece: string, rel: real)
    requires '-' !in piece || ParseRange(piece).start == NaN || ParseRange(piece).end == Some(NaN)
    ensures !Covers(ParseRange(piece), rel)
  {
  }

  /** Parsing a `|`-join of pieces yields the pieces' ranges in the same order. */
  lemma {:induction false} TimingsInInputOrder(pieces: seq<string>)
    requires |pieces| >= 1
    requires forall i :: 0 <= i < |pieces| ==> '|' !in pieces[i]
    ensures |ParseTimings(Join(pieces, '|'))| == |pieces|
    ensures forall i :: 0 <= i < |pieces| ==> ParseTimings(Join(pieces, '|'))[i] == ParseRange(pieces[i])
  {
    SplitJoin(pieces, '|');
  }

  /**
    `findIndex` over the ranges: the first range covering the relative time,
    or -1 when none does.
  */
  function SegmentIndex(ranges: seq<TimingRange>, rel: real): (i: int)
    ensures -1 <= i < |ranges|
    ensures i == -1 <==> forall k :: 0 <= k < |ranges| ==> !Covers(ranges[k], rel)
    ensures i >= 0 ==> Covers(ranges[i], rel) && forall k :: 0 <= k < i ==> !Covers(ranges[k], rel)
  {
    FindIndex(ranges, r => Covers(r, rel))
  }

  /** The first range covering the time is the segment, whatever ranges follow it. */
  lemma {:induction false} FirstCoveringRangeWins(ranges: seq<TimingRange>, rel: real, i: nat)
    requires i < |ranges| && Covers(ranges[i], rel)
    requires forall k :: 0 <= k < i ==> !Covers(ranges[k], rel)
    ensures SegmentIndex(ranges, rel) == i
  {
  }

  /** When two ranges overlap, the earlier one always wins. */
  lemma {:induction false} EarlierRangeWins(ranges: seq<TimingRange>, rel: real, i: nat, j: nat)
    requires i < j < |ranges|
    requires Covers(ranges[i], rel) && Covers(ranges[j], rel)
    ensures SegmentIndex(ranges, rel) != j
    ensures SegmentIndex(ranges, rel) <= i
  {
  }
}
