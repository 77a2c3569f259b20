/** The `M:SS` readout of the remaining time (`formatTime`), with the decimal rendering and the
    zero padding it relies on, and a parser that recovers the number of seconds from the readout. */
module TimeFormat {

  datatype Option<T> = None | Some(value: T)

  predicate IsDigit(c: char) {
    '0' <= c <= '9'
  }

  predicate AllDigits(s: string) {
    forall i :: 0 <= i < |s| ==> IsDigit(s[i])
  }

  function DigitChar(d: nat): (c: char)
    requires d < 10
    ensures IsDigit(c)
  {
    ('0' as int + d) as char
  }

  function DigitValue(c: char): (d: nat)
    requires IsDigit(c)
    ensures d < 10 && DigitChar(d) == c
  {
    c as int - '0' as int
  }

  /** The value of a string of decimal digits, most significant first (the empty string is 0). */
  function DecimalValue(s: string): (v: nat)
    requires AllDigits(s)
  {
    if s == [] then 0 else DecimalValue(s[..|s| - 1]) * 10 + DigitValue(s[|s| - 1])
  }

  /** `n.toString()` for a non-negative integer below 10^21: its decimal digits, with no leading zero
      unless the number is 0 itself, one digit below 10 and two digits from 10 to 99. */
  function Decimal(n: nat): (s: string)
    ensures |s| >= 1 && AllDigits(s)
    ensures s[0] != '0' || n == 0
    ensures n < 10 <==> |s| == 1
    ensures 10 <= n < 100 <==> |s| == 2
  {
    if n < 10 then [DigitChar(n)] else Decimal(n / 10) + [DigitChar(n % 10)]
  }

  /** Reading back the digits that `Decimal` writes gives the number again. */
  lemma {:induction false} DecimalRoundTrip(n: nat)
    ensures DecimalValue(Decimal(n)) == n
  {
    var s := Decimal(n);
    if n >= 10 {
      DecimalRoundTrip(n / 10);
      assert s[..|s| - 1] == Decimal(n / 10);
    }
  }

  /** `s.padStart(width, [fill])` for a one-character fill: `s` itself when it is already `width`
      long or longer, otherwise `s` preceded by as many copies of `fill` as make it `width` long. */
  function PadStart(s: string, width: nat, fill: char): (r: string)
    ensures |r| == if |s| >= width then |s| else width
    ensures r[|r| - |s|..] == s
    ensures forall i :: 0 <= i < |r| - |s| ==> r[i] == fill
  {
    if |s| >= width then s else seq(width - |s|, _ => fill) + s
  }

  /** `formatTime(seconds)`: whole minutes, a colon, then the remaining seconds padded to two digits. */
  function FormatTime(seconds: nat): (r: string) {
    Decimal(seconds / 60) + ":" + PadStart(Decimal(seconds % 60), 2, '0')
  }

  /** Reads an `M:SS` readout: at least one digit of minutes, a colon, exactly two digits of seconds
      below 60. */
  function ParseTime(s: string): (r: Option<nat>)
    ensures r.Some? ==> |s| >= 4 && s[|s| - 3] == ':' && AllDigits(s[..|s| - 3]) && AllDigits(s[|s| - 2..])
  {
    if |s| >= 4 && s[|s| - 3] == ':' && AllDigits(s[..|s| - 3]) && AllDigits(s[|s| - 2..])
       && DecimalValue(s[|s| - 2..]) < 60
    then Some(DecimalValue(s[..|s| - 3]) * 60 + DecimalValue(s[|s| - 2..]))
    else None
  }

  /** The seconds field of the readout is always exactly two digits, zero-padded. */
  lemma {:induction false} SecondsField(seconds: nat)
    ensures var f := PadStart(Decimal(seconds % 60), 2, '0');
      |f| == 2 && AllDigits(f) && DecimalValue(f) == seconds % 60
  {
    var n := seconds % 60;
    var d := Decimal(n);
    var f := PadStart(d, 2, '0');
    DecimalRoundTrip(n);
    if n < 10 {
      assert f == ['0', d[0]];
      assert f[..1] == ['0'];
    } else {
      assert f == d;
    }
  }

  /** The readout splits into a minutes field and a two-digit seconds field such that
      minutes * 60 + seconds is the number formatted and the seconds field is below 60. */
  lemma FormatTimeFields(seconds: nat)
    ensures var r := FormatTime(seconds);
      && |r| >= 4 && r[|r| - 3] == ':'
      && AllDigits(r[..|r| - 3]) && AllDigits(r[|r| - 2..])
      && DecimalValue(r[|r| - 2..]) < 60
      && DecimalValue(r[..|r| - 3]) * 60 + DecimalValue(r[|r| - 2..]) == seconds
  {
    var m := Decimal(seconds / 60);
    var f := PadStart(Decimal(seconds % 60), 2, '0');
    var r := FormatTime(seconds);
    SecondsField(seconds);
    DecimalRoundTrip(seconds / 60);
    assert r == m + ":" + f;
    assert r[..|r| - 3] == m;
    assert r[|r| - 2..] == f;
  }

  /** Parsing a readout gives back the number of seconds it was made from. */
  lemma FormatTimeRoundTrip(seconds: nat)
    ensures ParseTime(FormatTime(seconds)) == Some(seconds)
  {
    FormatTimeFields(seconds);
  }

  /** Different numbers of seconds are shown differently. */
  lemma FormatTimeInjective(a: nat, b: nat)
    requires FormatTime(a) == FormatTime(b)
    ensures a == b
  {
    FormatTimeRoundTrip(a);
    FormatTimeRoundTrip(b);
  }

  /** Sample readouts: two minutes five seconds, under a minute, the ten-minute session, and no
      time left. */
  lemma FormatTimeExamples()
    ensures FormatTime(125) == "2:05"
    ensures FormatTime(59) == "0:59"
    ensures FormatTime(600) == "10:00"
    ensures FormatTime(0) == "0:00"
  {
    Readout125();
    Readout59();
    Readout600();
    Readout0();
  }

  lemma Readout125()
    ensures FormatTime(125) == "2:05"
  {
    assert 125 / 60 == 2 && 125 % 60 == 5;
    assert FormatTime(125) == Decimal(2) + ":" + PadStart(Decimal(5), 2, '0');
    assert Decimal(2) == "2" && PadStart("5", 2, '0') == "05";
  }

  lemma Readout59()
    ensures FormatTime(59) == "0:59"
  {
    assert 59 / 60 == 0 && 59 % 60 == 59;
    assert FormatTime(59) == Decimal(0) + ":" + PadStart(Decimal(59), 2, '0');
    assert Decimal(59) == Decimal(5) + "9" == "59";
  }

  lemma Readout600()
    ensures FormatTime(600) == "10:00"
  {
    assert 600 / 60 == 10 && 600 % 60 == 0;
    assert FormatTime(600) == Decimal(10) + ":" + PadStart(Decimal(0), 2, '0');
    assert Decimal(10) == Decimal(1) + "0" == "10";
    assert PadStart("0", 2, '0') == "00";
  }

  lemma Readout0()
    ensures FormatTime(0) == "0:00"
  {
    assert FormatTime(0) == Decimal(0) + ":" + PadStart(Decimal(0), 2, '0');
    assert PadStart("0", 2, '0') == "00";
  }
}
