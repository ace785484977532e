/**
  Timing strings written out from number literals, so that facts about the
  concrete phrase table follow from general lemmas instead of from
  unfolding `split` over long string constants.
*/
module TimingLiterals {
  import opened Wrappers
  import opened JsText
  import opened JsNumbers
  import opened Timing

  /** A well-formed range `a-b`. */
  function Range(a: real, b: real): TimingRange {
    TimingRange(Num(a), Some(Num(b)))
  }

  /** A number as the tables write it: `7` or `7.35`. */
  datatype Literal = Int(whole: nat) | Dec(whole: nat, fraction: nat)

  function Text(l: Literal): string {
    match l
    case Int(a) => NatToString(a)
    case Dec(a, b) => NatToString(a) + ['.'] + NatToString(b)
  }

  function Value(l: Literal): real {
    match l
    case Int(a) => a as real
    case Dec(a, b) => a as real + b as real / Pow10(|NatToString(b)|) as real
  }

  lemma NumberOfDecimalLiteral(a: nat, b: nat)
    ensures ParseNumber(Text(Dec(a, b))) == Num(Value(Dec(a, b)))
    ensures forall i :: 0 <= i < |Text(Dec(a, b))| ==> IsDigit(Text(Dec(a, b))[i]) || Text(Dec(a, b))[i] == '.'
  {
    var ip, fp := NatToString(a), NatToString(b);
    var s := ip + ['.'] + fp;
    assert Text(Dec(a, b)) == s;
    DigitsOfNatToString(a);
    DigitsOfNatToString(b);
    assert Value(Dec(a, b)) == DigitsValue(ip) as real + DigitsValue(fp) as real / Pow10(|fp|) as real;
    NumberOfDecimal(ip, fp);
    DecimalChars(ip, fp);
  }

  lemma DecimalChars(ip: string, fp: string)
    requires AllDigits(ip) && AllDigits(fp)
    ensures forall i :: 0 <= i < |ip + ['.'] + fp| ==> IsDigit((ip + ['.'] + fp)[i]) || (ip + ['.'] + fp)[i] == '.'
  {
    var s := ip + ['.'] + fp;
    forall i | 0 <= i < |s| ensures IsDigit(s[i]) || s[i] == '.' {
      if i < |ip| {
        assert s[i] == ip[i];
      } else if i > |ip| {
        assert s[i] == fp[i - |ip| - 1];
      }
    }
  }

  lemma NumberOfLiteral(l: Literal)
    ensures ParseNumber(Text(l)) == Num(Value(l))
    ensures forall i :: 0 <= i < |Text(l)| ==> IsDigit(Text(l)[i]) || Text(l)[i] == '.'
  {
    match l
    case Int(a) =>
      NumberOfNatToString(a);
    case Dec(a, b) =>
      NumberOfDecimalLiteral(a, b);
  }

  /** The piece `start-end` of a timing string. */
  function RangeText(r: (Literal, Literal)): string {
    Text(r.0) + ['-'] + Text(r.1)
  }

  lemma NoSeparatorIn(l: Literal)
    ensures '-' !in Text(l) && '|' !in Text(l)
  {
    NumberOfLiteral(l);
    var s := Text(l);
    assert forall i :: 0 <= i < |s| ==> s[i] != '-' && s[i] != '|';
  }

  lemma RangeOfLiterals(r: (Literal, Literal))
    ensures ParseRange(RangeText(r)) == Range(Value(r.0), Value(r.1))
    ensures '|' !in RangeText(r)
  {
    NumberOfLiteral(r.0);
    NumberOfLiteral(r.1);
    NoSeparatorIn(r.0);
    NoSeparatorIn(r.1);
    RangeOfBounds(Text(r.0), Text(r.1));
  }

  /** The timing string of a list of ranges. */
  function TimingText(rs: seq<(Literal, Literal)>): string
    requires |rs| >= 1
  {
    Join(seq(|rs|, i requires 0 <= i < |rs| => RangeText(rs[i])), '|')
  }

  /** The ranges of a timing string written out from literals. */
  function Ranges(rs: seq<(Literal, Literal)>): seq<TimingRange> {
    seq(|rs|, i requires 0 <= i < |rs| => Range(Value(rs[i].0), Value(rs[i].1)))
  }

  lemma {:induction false} TimingsOfLiterals(timing: string, rs: seq<(Literal, Literal)>)
    requires |rs| >= 1 && timing == TimingText(rs)
    ensures ParseTimings(timing) == Ranges(rs)
  {
    var pieces := seq(|rs|, i requires 0 <= i < |rs| => RangeText(rs[i]));
    PiecesOfLiterals(pieces, rs);
    TimingsInInputOrder(pieces);
  }

  /** Each piece written from a pair of literals is separator-free and reads back as that pair's range. */
  lemma PiecesOfLiterals(pieces: seq<string>, rs: seq<(Literal, Literal)>)
    requires |pieces| == |rs| && forall i :: 0 <= i < |rs| ==> pieces[i] == RangeText(rs[i])
    ensures forall i :: 0 <= i < |rs| ==> '|' !in pieces[i] && ParseRange(pieces[i]) == Range(Value(rs[i].0), Value(rs[i].1))
  {
    forall i | 0 <= i < |rs| ensures '|' !in pieces[i] && ParseRange(pieces[i]) == Range(Value(rs[i].0), Value(rs[i].1)) {
      RangeOfLiterals(rs[i]);
    }
  }

  lemma JoinFive(a: string, b: string, c: string, d: string, e: string, sep: char)
    ensures Join([a, b, c, d, e], sep) == a + [sep] + b + [sep] + c + [sep] + d + [sep] + e
  {
    JoinFront(a, [b, c, d, e], sep);
    assert [a] + [b, c, d, e] == [a, b, c, d, e];
    JoinFront(b, [c, d, e], sep);
    assert [b] + [c, d, e] == [b, c, d, e];
    JoinFront(c, [d, e], sep);
    assert [c] + [d, e] == [c, d, e];
    JoinFront(d, [e], sep);
    assert [d] + [e] == [d, e];
  }
}
