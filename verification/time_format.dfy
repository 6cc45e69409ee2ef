/**
 The `m:ss` readout of the video player (`formatTime`), over whole seconds:
 the decimal number of minutes, a colon, and the seconds within the minute
 as exactly two digits. A parser for the same format shows that nothing is
 lost: parsing a formatted time gives back its minutes and seconds, and
 formatting a parsed canonical readout gives back the readout.
 */
module TimeFormat {
  import opened Wrappers

  predicate IsDigit(ch: char)
  {
    '0' <= ch <= '9'
  }

  predicate AllDigits(s: string)
  {
    forall i :: 0 <= i < |s| ==> IsDigit(s[i])
  }

  function DigitChar(d: nat): (ch: char)
    requires d < 10
    ensures IsDigit(ch)
  {
    (d + '0' as int) as char
  }

  function DigitValue(ch: char): (d: nat)
    requires IsDigit(ch)
    ensures d < 10
  {
    ch as int - '0' as int
  }

  /** The decimal notation of `n`, as JavaScript writes a whole number below
      10^21 (from there on it switches to exponent notation). */
  function Decimal(n: nat): (r: string)
    ensures |r| >= 1 && AllDigits(r)
    ensures r[0] == '0' ==> n == 0
    ensures n < 10 <==> |r| == 1
    decreases n
  {
    if n < 10 then [DigitChar(n)] else Decimal(n / 10) + [DigitChar(n % 10)]
  }

  /** The number a string of decimal digits denotes. */
  function Value(s: string): nat
    requires AllDigits(s)
    decreases |s|
  {
    if |s| == 0 then 0 else Value(s[..|s| - 1]) * 10 + DigitValue(s[|s| - 1])
  }

  /** Digits with no leading zero, or the single digit `0`. */
  predicate Canonical(s: string)
  {
    |s| >= 1 && AllDigits(s) && (s[0] == '0' ==> |s| == 1)
  }

  lemma {:induction false} ValueOfDecimal(n: nat)
    ensures Value(Decimal(n)) == n
    decreases n
  {
    if n >= 10 {
      var d := Decimal(n / 10);
      assert (d + [DigitChar(n % 10)])[..|d|] == d;
      ValueOfDecimal(n / 10);
    }
  }

  lemma {:induction false} ValueOfLeadingNonZero(s: string)
    requires |s| >= 1 && AllDigits(s) && s[0] != '0'
    ensures Value(s) >= 1
    decreases |s|
  {
    if |s| > 1 {
      ValueOfLeadingNonZero(s[..|s| - 1]);
    }
  }

  lemma {:induction false} DecimalOfValue(s: string)
    requires Canonical(s)
    ensures Decimal(Value(s)) == s
    decreases |s|
  {
    var last := s[|s| - 1];
    if |s| == 1 {
      assert DigitChar(DigitValue(last)) == last;
    } else {
      var init := s[..|s| - 1];
      var v := Value(s);
      assert v == Value(init) * 10 + DigitValue(last);
      ValueOfLeadingNonZero(init);
      assert v / 10 == Value(init) && v % 10 == DigitValue(last);
      assert Decimal(v) == Decimal(Value(init)) + [DigitChar(DigitValue(last))];
      DecimalOfValue(init);
      assert DigitChar(DigitValue(last)) == last;
      assert init + [last] == s;
    }
  }

  /** `String.prototype.substr(-n)`: the last `n` characters, or all of `s`
      when it is shorter. At `n = 0` the start index `-0` is index `0`, so
      the whole of `s` comes back rather than nothing. */
  function TakeLast(s: string, n: nat): (r: string)
    ensures |r| == if n == 0 || |s| <= n then |s| else n
    ensures forall i :: 0 <= i < |r| ==> r[i] == s[|s| - |r| + i]
  {
    if n == 0 || |s| <= n then s else s[|s| - n..]
  }

  /** `('0' + seconds).substr(-2)`: always exactly two characters. */
  function PadSeconds(s: nat): (r: string)
    ensures |r| == 2
  {
    TakeLast("0" + Decimal(s), 2)
  }

  lemma PadSecondsIsTwoDigits(s: nat)
    requires s < 60
    ensures |PadSeconds(s)| == 2 && AllDigits(PadSeconds(s))
    ensures Value(PadSeconds(s)) == s
    ensures PadSeconds(s)[0] <= '5'
  {
    var p := PadSeconds(s);
    if s < 10 {
      assert p == ['0', DigitChar(s)];
      assert p[..1] == "0";
      assert ("0")[..0] == [];
    } else {
      assert Decimal(s) == Decimal(s / 10) + [DigitChar(s % 10)];
      assert p == Decimal(s);
      ValueOfDecimal(s);
      assert p[0] == DigitChar(s / 10);
    }
  }

  /** `formatTime` on a whole number of seconds `t`: the minutes, a colon,
      and the seconds within the minute padded to two digits. */
  function FormatTime(t: nat): (r: string)
    ensures |r| >= 4 && r[|r| - 3] == ':'
  {
    Decimal(t / 60) + ":" + PadSeconds(t % 60)
  }

  /** The text before the colon of an `m:ss` readout. */
  function MinutesPart(r: string): string
    requires |r| >= 3
  {
    r[..|r| - 3]
  }

  /** The two characters after the colon of an `m:ss` readout. */
  function SecondsPart(r: string): string
    requires |r| >= 3
  {
    r[|r| - 2..]
  }

  /** Text of the shape `m:ss`: digits, a colon, two digits. */
  predicate IsReadout(r: string)
  {
    && |r| >= 4 && r[|r| - 3] == ':'
    && AllDigits(MinutesPart(r)) && AllDigits(SecondsPart(r))
  }

  /** The readout of `t` has the `m:ss` shape: the part before the colon is
      the canonical decimal of the minutes, the two digits after it are the
      seconds within the minute, zero-padded, from `00` to `59`. */
  lemma FormatTimeShape(t: nat)
    ensures IsReadout(FormatTime(t))
    ensures Canonical(MinutesPart(FormatTime(t)))
    ensures Value(MinutesPart(FormatTime(t))) == t / 60
    ensures Value(SecondsPart(FormatTime(t))) == t % 60
    ensures '0' <= SecondsPart(FormatTime(t))[0] <= '5'
  {
    PadSecondsIsTwoDigits(t % 60);
    ValueOfDecimal(t / 60);
    SplitReadout(Decimal(t / 60), PadSeconds(t % 60));
  }

  lemma SplitReadout(minutes: string, seconds: string)
    requires |seconds| == 2
    ensures var r := minutes + ":" + seconds;
      |r| == |minutes| + 3 && r[|r| - 3] == ':' && MinutesPart(r) == minutes && SecondsPart(r) == seconds
  {
    var r := minutes + ":" + seconds;
    assert r[..|r| - 3] == minutes;
    assert r[|r| - 2..] == seconds;
  }

  /** Reads an `m:ss` readout back into minutes and seconds. The parsed
      seconds pad back to the two digits they were read from, canonical
      minutes print back as the digits they were read from. */
  function ParseTime(s: string): (r: Option<(nat, nat)>)
    ensures r.Some? ==> |s| >= 4 && s[|s| - 3] == ':' && PadSeconds(r.value.1) == SecondsPart(s)
    ensures r.Some? && Canonical(MinutesPart(s)) ==> Decimal(r.value.0) == MinutesPart(s)
  {
    if IsReadout(s) && Value(SecondsPart(s)) < 60 then
      PadSecondsOfValue(SecondsPart(s));
      DecimalOfCanonical(MinutesPart(s));
      Some((Value(MinutesPart(s)), Value(SecondsPart(s))))
    else
      None
  }

  lemma DecimalOfCanonical(s: string)
    requires AllDigits(s)
    ensures Canonical(s) ==> Decimal(Value(s)) == s
  {
    if Canonical(s) {
      DecimalOfValue(s);
    }
  }

  /** A text the parser rejects is the readout of no time at all. */
  lemma ParseRejectsOnlyNonReadouts(s: string)
    ensures ParseTime(s).None? ==> forall t: nat :: FormatTime(t) != s
  {
    forall t: nat
      ensures ParseTime(s).None? ==> FormatTime(t) != s
    {
      FormatTimeShape(t);
    }
  }

  /** Parsing a formatted time gives its minutes and seconds, which add back
      up to the time. */
  lemma FormatThenParse(t: nat)
    ensures ParseTime(FormatTime(t)) == Some((t / 60, t % 60))
    ensures ParseTime(FormatTime(t)).value.0 * 60 + ParseTime(FormatTime(t)).value.1 == t
  {
    FormatTimeShape(t);
  }

  /** Formatting the time a canonical readout denotes gives the readout back. */
  lemma ParseThenFormat(s: string)
    requires ParseTime(s).Some? && Canonical(MinutesPart(s))
    ensures FormatTime(ParseTime(s).value.0 * 60 + ParseTime(s).value.1) == s
  {
    var p := ParseTime(s).value;
    ParsedSecondsBelowSixty(s);
    FormatOfMinutesSeconds(p.0, p.1);
    ReassembleReadout(s);
  }

  lemma ParsedSecondsBelowSixty(s: string)
    requires ParseTime(s).Some?
    ensures ParseTime(s).value.1 < 60
  {
  }

  /** The readout of `m` minutes and `sec` seconds is built from exactly
      those two numbers. */
  lemma FormatOfMinutesSeconds(m: nat, sec: nat)
    requires sec < 60
    ensures FormatTime(m * 60 + sec) == Decimal(m) + ":" + PadSeconds(sec)
  {
    DivModOfMinutesSeconds(m, sec);
  }

  /** A canonical readout is made of the decimal of its minutes, a colon and
      the padded seconds. */
  lemma ReassembleReadout(s: string)
    requires ParseTime(s).Some? && Canonical(MinutesPart(s))
    ensures Decimal(ParseTime(s).value.0) + ":" + PadSeconds(ParseTime(s).value.1) == s
  {
    JoinReadout(s);
  }

  /** A text with a colon third from the end is its minutes part, the colon
      and its seconds part. */
  lemma JoinReadout(s: string)
    requires |s| >= 3 && s[|s| - 3] == ':'
    ensures s == MinutesPart(s) + ":" + SecondsPart(s)
  {
    assert s == s[..|s| - 3] + [s[|s| - 3]] + s[|s| - 2..];
  }

  lemma DivModOfMinutesSeconds(m: nat, sec: nat)
    requires sec < 60
    ensures (m * 60 + sec) / 60 == m && (m * 60 + sec) % 60 == sec
  {
  }

  lemma PadSecondsOfValue(sec: string)
    requires |sec| == 2 && AllDigits(sec) && Value(sec) < 60
    ensures PadSeconds(Value(sec)) == sec
  {
    var v := Value(sec);
    assert sec[..1][..0] == [];
    assert v == DigitValue(sec[0]) * 10 + DigitValue(sec[1]);
    if sec[0] == '0' {
      assert DigitChar(DigitValue(sec[1])) == sec[1];
      assert "0" + Decimal(v) == sec;
    } else {
      DecimalOfValue(sec);
    }
  }

  /** Different times give different readouts. */
  lemma FormatTimeInjective(a: nat, b: nat)
    ensures FormatTime(a) == FormatTime(b) ==> a == b
  {
    FormatThenParse(a);
    FormatThenParse(b);
  }

  lemma FormatTimeExamples()
    ensures FormatTime(0) == "0:00"
    ensures FormatTime(596) == "9:56"
  {
    assert PadSeconds(0) == TakeLast("00", 2) == "00";
    assert FormatTime(0) == "0" + ":" + "00";
    assert 596 / 60 == 9 && 596 % 60 == 56;
    var d := Decimal(56);
    assert d == Decimal(5) + [DigitChar(6)] == "56";
    assert PadSeconds(56) == TakeLast("056", 2) == "56";
    assert FormatTime(596) == Decimal(9) + ":" + PadSeconds(56) == "9" + ":" + "56";
  }
}
