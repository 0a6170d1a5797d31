/**
 * `formatTime`: seconds rendered as "m:ss". Both the timer view and the summary
 * dialog define the same arrow function; this is its one definition here.
 */
module TimeFormat {
  import opened Strings
  import opened Wrappers

  /** JavaScript `a % b` for a positive divisor: the remainder takes the sign of `a`. */
  function JsRem(a: int, b: int): (r: int)
    requires b > 0
    ensures a >= 0 ==> r == a % b
    ensures a < 0 ==> -b < r <= 0
  {
    if a >= 0 then a % b else -((-a) % b)
  }

  /** The seconds field: one "0" of padding when the remainder is below ten. */
  function SecondsField(secs: int): string {
    (if secs < 10 then "0" else "") + IntToString(secs)
  }

  /**
   * `${Math.floor(seconds / 60)}:${secs < 10 ? "0" : ""}${secs}` with
   * `secs = seconds % 60`. Dafny's `/` by a positive divisor is floor division,
   * as `Math.floor(seconds / 60)` is on integers.
   */
  function FormatTime(seconds: int): string {
    IntToString(seconds / 60) + ":" + SecondsField(JsRem(seconds, 60))
  }

  /** The seconds field of a non-negative time: exactly two digits. */
  function Pad2(n: nat): (r: string)
    requires n < 60
    ensures |r| == 2 && AllDigits(r)
    ensures ParseNat(r) == n
  {
    DigitRoundTrip(n / 10);
    DigitRoundTrip(n % 10);
    var r := [DigitChar(n / 10), DigitChar(n % 10)];
    assert r[..1] == [DigitChar(n / 10)];
    assert ParseNat(r[..1]) == n / 10 by {
      assert r[..1][..0] == [];
    }
    r
  }

  /**
   * For a non-negative number of seconds the text is the minutes in decimal, a
   * colon, and the seconds zero-padded to exactly two digits.
   */
  lemma FormatTimeShape(n: int)
    requires n >= 0
    ensures FormatTime(n) == NatToString(n / 60) + ":" + Pad2(n % 60)
  {
    var secs := n % 60;
    if secs < 10 {
      assert NatToString(secs) == [DigitChar(secs)];
    } else {
      assert NatToString(secs) == NatToString(secs / 10) + [DigitChar(secs % 10)];
    }
  }

  /** Reads "m:ss" back into seconds: decimal minutes, a colon, two digits. */
  function ParseClock(s: string): Option<int> {
    if |s| >= 4 && s[|s| - 3] == ':' && AllDigits(s[..|s| - 3]) && AllDigits(s[|s| - 2..]) then
      Some(ParseNat(s[..|s| - 3]) * 60 + ParseNat(s[|s| - 2..]))
    else None
  }

  /** Reading "m:ss" back, for a digit string m and two digits ss. */
  lemma ParseClockOfParts(m: string, p: string)
    requires |m| >= 1 && AllDigits(m) && |p| == 2 && AllDigits(p)
    ensures ParseClock(m + ":" + p) == Some(ParseNat(m) * 60 + ParseNat(p))
  {
    var s := m + ":" + p;
    assert s[|s| - 3] == ':';
    assert s[..|s| - 3] == m;
    assert s[|s| - 2..] == p;
  }

  /** Reading back minutes `q` and seconds `r` written as "m:ss" gives q * 60 + r. */
  lemma ParseClockOfMinutes(q: nat, r: nat)
    requires r < 60
    ensures ParseClock(NatToString(q) + ":" + Pad2(r)) == Some(q * 60 + r)
  {
    ParseClockOfParts(NatToString(q), Pad2(r));
    ParseNatToString(q);
  }

  /** Reading back the text of a non-negative time recovers the time. */
  lemma ParseFormatTime(n: int)
    requires n >= 0
    ensures ParseClock(FormatTime(n)) == Some(n)
  {
    var q, r := n / 60, n % 60;
    assert q * 60 + r == n;
    FormatTimeShape(n);
    ParseClockOfMinutes(q, r);
  }

  /** Distinct non-negative times never share a text. */
  lemma FormatTimeInjective(a: int, b: int)
    requires a >= 0 && b >= 0
    requires FormatTime(a) == FormatTime(b)
    ensures a == b
  {
    ParseFormatTime(a);
    ParseFormatTime(b);
  }

  /** The text of a non-negative time starts with a digit and is at least four characters long. */
  lemma FormatTimeLeadsWithDigit(n: int)
    requires n >= 0
    ensures |FormatTime(n)| >= 4 && IsDigit(FormatTime(n)[0])
  {
    FormatTimeShape(n);
  }
}
