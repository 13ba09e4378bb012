/** The timer display: a signed second count rendered as an optional "+"
    followed by zero-padded minutes, a colon and zero-padded seconds. */
module TimeFormat {
  import opened Wrappers

  predicate IsDigit(ch: char) {
    '0' <= ch <= '9'
  }

  predicate AllDigits(s: string) {
    forall i :: 0 <= i < |s| ==> IsDigit(s[i])
  }

  function DigitChar(d: nat): (ch: char)
    requires d < 10
    ensures IsDigit(ch) && DigitValue(ch) == d
  {
    (('0' as int) + d) as char
  }

  function DigitValue(ch: char): nat
    requires IsDigit(ch)
  {
    (ch as int) - ('0' as int)
  }

  /** The number a string of decimal digits denotes (most significant first). */
  function ValueOf(s: string): nat
    requires AllDigits(s)
  {
    if |s| == 0 then 0 else ValueOf(s[..|s| - 1]) * 10 + DigitValue(s[|s| - 1])
  }

  /** Decimal rendering of a non-negative integer, as Number.prototype.toString()
      gives it: at least one digit and no leading zero. */
  function NatToString(n: nat): (r: string)
    ensures |r| >= 1 && AllDigits(r)
    ensures |r| > 1 ==> r[0] != '0'
    ensures n < 10 <==> |r| == 1
  {
    if n < 10 then [DigitChar(n)] else NatToString(n / 10) + [DigitChar(n % 10)]
  }

  function Repeat(ch: char, k: nat): (r: string)
    ensures |r| == k && forall i :: 0 <= i < k ==> r[i] == ch
  {
    if k == 0 then [] else [ch] + Repeat(ch, k - 1)
  }

  /** String.prototype.padStart: prefixes `fill` until the length is at least
      `len`, and never truncates. */
  function PadStart(s: string, len: nat, fill: char): (r: string)
    ensures |r| == if |s| < len then len else |s|
    ensures r[|r| - |s|..] == s
    ensures forall i :: 0 <= i < |r| - |s| ==> r[i] == fill
  {
    if |s| < len then Repeat(fill, len - |s|) + s else s
  }

  function Abs(x: int): nat {
    if x < 0 then -x else x
  }

  /** The display of a signed second count: a positive count (overtime) gets a
      "+" sign, zero and negative counts (time remaining) get none. */
  function FormatTime(seconds: int): (r: string)
    ensures |r| >= 5
    ensures r[0] == '+' <==> seconds > 0
  {
    var plus := if seconds > 0 then "+" else "";
    var magnitude := Abs(seconds);
    var mins := magnitude / 60;
    var secs := magnitude % 60;
    plus + Field(mins) + ":" + Field(secs)
  }

  /** One field of the display: `n.toString().padStart(2, '0')`. */
  function Field(n: nat): string {
    PadStart(NatToString(n), 2, '0')
  }

  /** Whether a display carries the overtime sign. */
  predicate HasPlus(t: string) {
    |t| > 0 && t[0] == '+'
  }

  /** The part of a display after its optional sign. */
  function Unsigned(t: string): string {
    if HasPlus(t) then t[1..] else t
  }

  /** The display syntax: an optional "+", at least two minute digits, a colon
      and exactly two second digits. */
  predicate WellShaped(t: string) {
    var b := Unsigned(t);
    |b| >= 5 && b[|b| - 3] == ':' && AllDigits(b[..|b| - 3]) && AllDigits(b[|b| - 2..])
  }

  /** The minutes field of a display, as text. */
  function MinutesField(t: string): (m: string)
    requires WellShaped(t)
    ensures AllDigits(m) && |m| >= 2
  {
    var b := Unsigned(t);
    b[..|b| - 3]
  }

  /** The seconds field of a display, as text. */
  function SecondsField(t: string): (s: string)
    requires WellShaped(t)
    ensures AllDigits(s) && |s| == 2
  {
    var b := Unsigned(t);
    b[|b| - 2..]
  }

  /** Reads a display back. A display without a sign denotes time remaining,
      so its value is negated; a seconds field of 60 or more is refused. */
  function ParseTime(t: string): (r: Option<int>)
  {
    if !WellShaped(t) || ValueOf(SecondsField(t)) >= 60 then None
    else
      var magnitude := ValueOf(MinutesField(t)) * 60 + ValueOf(SecondsField(t));
      Some(if HasPlus(t) then magnitude else -magnitude)
  }

  lemma {:induction false} ValueOfAppend(s: string, ch: char)
    requires AllDigits(s) && IsDigit(ch)
    ensures AllDigits(s + [ch]) && ValueOf(s + [ch]) == ValueOf(s) * 10 + DigitValue(ch)
  {
    assert (s + [ch])[..|s|] == s;
  }

  /** NatToString and ValueOf are inverse. */
  lemma {:induction false} NatToStringValue(n: nat)
    ensures ValueOf(NatToString(n)) == n
  {
    if n >= 10 {
      NatToStringValue(n / 10);
      ValueOfAppend(NatToString(n / 10), DigitChar(n % 10));
    }
  }

  /** A leading zero does not change the value of a digit string. */
  lemma {:induction false} LeadingZero(s: string)
    requires AllDigits(s)
    ensures AllDigits(['0'] + s) && ValueOf(['0'] + s) == ValueOf(s)
  {
    if |s| > 0 {
      var init := s[..|s| - 1];
      assert (['0'] + s)[..|s|] == ['0'] + init;
      LeadingZero(init);
    }
  }

  lemma {:induction false} LeadingZeros(k: nat, s: string)
    requires AllDigits(s)
    ensures AllDigits(Repeat('0', k) + s) && ValueOf(Repeat('0', k) + s) == ValueOf(s)
  {
    if k > 0 {
      LeadingZeros(k - 1, s);
      assert Repeat('0', k) + s == ['0'] + (Repeat('0', k - 1) + s);
      LeadingZero(Repeat('0', k - 1) + s);
    } else {
      assert Repeat('0', k) + s == s;
    }
  }

  /** A field is all digits, at least two long, and denotes `n`. */
  lemma FieldValue(n: nat)
    ensures AllDigits(Field(n)) && |Field(n)| >= 2 && ValueOf(Field(n)) == n
  {
    var s := NatToString(n);
    NatToStringValue(n);
    if |s| < 2 {
      LeadingZeros(2 - |s|, s);
    }
  }

  /** A field of a number below 100 is exactly two long. */
  lemma FieldOfSmall(n: nat)
    requires n < 100
    ensures |Field(n)| == 2
  {
    if n >= 10 {
      assert NatToString(n) == NatToString(n / 10) + [DigitChar(n % 10)];
    }
  }

  lemma SplitAtColon(m: string, s: string)
    requires |s| == 2
    ensures var b := m + ":" + s;
      |b| == |m| + 3 && b[|b| - 3] == ':' && b[..|b| - 3] == m && b[|b| - 2..] == s
  {
    var b := m + ":" + s;
    assert b[..|b| - 3] == m;
    assert b[|b| - 2..] == s;
  }

  /** A display assembled from an optional sign, a minutes field and a
      two-digit seconds field is well shaped and splits back into those parts. */
  lemma AssembledFields(plus: bool, m: string, s: string)
    requires AllDigits(m) && |m| >= 2 && AllDigits(s) && |s| == 2
    ensures var t := (if plus then "+" else "") + m + ":" + s;
      && (HasPlus(t) <==> plus)
      && WellShaped(t) && MinutesField(t) == m && SecondsField(t) == s
  {
    SplitAtColon(m, s);
    var b := m + ":" + s;
    var t := (if plus then "+" else "") + m + ":" + s;
    if plus {
      assert t == "+" + b;
      assert t[1..] == b;
    } else {
      assert t == b;
      assert IsDigit(t[0]);
    }
    assert Unsigned(t) == b;
  }

  /** The shape of a display: a sign exactly for positive counts, a minutes
      field of at least two digits, a colon, a seconds field of exactly two
      digits below 60, and minutes * 60 + seconds equal to the magnitude. */
  lemma FormatTimeFields(seconds: int)
    ensures var t := FormatTime(seconds);
      && (HasPlus(t) <==> seconds > 0)
      && WellShaped(t)
      && ValueOf(SecondsField(t)) < 60
      && ValueOf(MinutesField(t)) * 60 + ValueOf(SecondsField(t)) == Abs(seconds)
  {
    var magnitude := Abs(seconds);
    var mins, secs := magnitude / 60, magnitude % 60;
    assert mins * 60 + secs == magnitude && secs < 60;
    var m, s := Field(mins), Field(secs);
    FieldValue(mins);
    FieldValue(secs);
    FieldOfSmall(secs);
    AssembledFields(seconds > 0, m, s);
    FormatTimeParts(seconds);
  }

  /** FormatTime is the sign, the minutes field, a colon and the seconds field. */
  lemma FormatTimeParts(seconds: int)
    ensures FormatTime(seconds) == (if seconds > 0 then "+" else "") + Field(Abs(seconds) / 60) + ":" + Field(Abs(seconds) % 60)
  {
  }

  /** Reading a display back gives the count it was rendered from. */
  lemma ParseFormatTime(seconds: int)
    ensures ParseTime(FormatTime(seconds)) == Some(seconds)
  {
    FormatTimeFields(seconds);
  }

  /** Displays of different counts differ: the display loses nothing. */
  lemma FormatTimeInjective(x: int, y: int)
    requires FormatTime(x) == FormatTime(y)
    ensures x == y
  {
    ParseFormatTime(x);
    ParseFormatTime(y);
  }
}
