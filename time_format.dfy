/**
 * `formatTime`: a duration in whole seconds as text, "Hh Mm Ss", with the
 * hours part only when there is at least one hour. The source computes
 * hours with `Math.floor(seconds / 3600)` and the rest with JavaScript's
 * `%`, which truncates toward zero; both are written out here for every
 * integer, negative ones included.
 */
module TimeFormat {

  /** JavaScript's `a % b` for a positive divisor: the sign follows the dividend. */
  function JsRem(a: int, b: int): (r: int)
    requires b > 0
    ensures a >= 0 ==> 0 <= r < b
    ensures a < 0 ==> -b < r <= 0
    ensures a == b * (if a >= 0 then a / b else -((-a) / b)) + r
  {
    if a >= 0 then a % b else -((-a) % b)
  }

  datatype Clock = Clock(hours: int, minutes: int, secs: int)

  /** The three numbers `formatTime` prints. */
  function Split(seconds: int): (c: Clock)
    ensures seconds >= 0 ==>
      && c.hours * 3600 + c.minutes * 60 + c.secs == seconds
      && c.hours >= 0 && 0 <= c.minutes < 60 && 0 <= c.secs < 60
    ensures c.hours > 0 <==> seconds >= 3600
  {
    var hours := seconds / 3600;
    var minutes := JsRem(seconds, 3600) / 60;
    var secs := JsRem(seconds, 60);
    SplitArith(seconds);
    Clock(hours, minutes, secs)
  }

  lemma SplitArith(s: int)
    ensures s >= 0 ==> s == s / 3600 * 3600 + s % 3600 / 60 * 60 + s % 60
  {
    if s >= 0 {
      ModOfMod(s);
    }
  }

  lemma ModOfMod(s: nat)
    ensures s % 60 == (s % 3600) % 60
  {
    var q, r := s / 3600, s % 3600;
    assert s == (q * 60 + r / 60) * 60 + r % 60;
    DivModUnique(s, q * 60 + r / 60, r % 60);
  }

  lemma DivModUnique(s: int, q: int, r: int)
    requires s == q * 60 + r && 0 <= r < 60
    ensures s % 60 == r
  {
  }

  function DigitChar(d: nat): char
    requires d < 10
  {
    (48 + d) as char
  }

  /** The decimal digits of a natural number, most significant first. */
  function NatToString(n: nat): (s: string)
    ensures |s| > 0
    ensures forall i :: 0 <= i < |s| ==> '0' <= s[i] <= '9'
  {
    if n < 10 then [DigitChar(n)] else NatToString(n / 10) + [DigitChar(n % 10)]
  }

  /** How JavaScript interpolates an integer into a template string. */
  function IntToString(i: int): (s: string)
    ensures forall k :: 0 <= k < |s| ==> s[k] == '-' || '0' <= s[k] <= '9'
    ensures i >= 0 ==> s == NatToString(i)
  {
    if i < 0 then "-" + NatToString(-i) else NatToString(i)
  }

  function FormatTime(seconds: int): (text: string)
  {
    var c := Split(seconds);
    if c.hours > 0 then
      IntToString(c.hours) + "h " + IntToString(c.minutes) + "m " + IntToString(c.secs) + "s"
    else
      IntToString(c.minutes) + "m " + IntToString(c.secs) + "s"
  }

  /** Text made of digits and minus signs, as `IntToString` produces. */
  ghost predicate Numeral(s: string)
  {
    forall k :: 0 <= k < |s| ==> s[k] == '-' || '0' <= s[k] <= '9'
  }

  lemma MinutesAndSecondsHaveNoH(m: string, s: string)
    requires Numeral(m) && Numeral(s)
    ensures 'h' !in m + "m " + s + "s"
  {
    var tail := m + "m " + s + "s";
    forall k | 0 <= k < |tail| ensures tail[k] != 'h' {
      if k < |m| {
        assert tail[k] == m[k];
      } else if |m| + 2 <= k < |m| + 2 + |s| {
        assert tail[k] == s[k - |m| - 2];
      }
    }
  }

  /** The hours segment is shown exactly when the duration is at least an hour. */
  lemma FormatTimeShowsHours(seconds: int)
    ensures 'h' in FormatTime(seconds) <==> seconds >= 3600
  {
    var c := Split(seconds);
    var tail := IntToString(c.minutes) + "m " + IntToString(c.secs) + "s";
    MinutesAndSecondsHaveNoH(IntToString(c.minutes), IntToString(c.secs));
    assert c.hours > 0 <==> seconds >= 3600;
    assert FormatTime(seconds) == if c.hours > 0 then IntToString(c.hours) + "h " + tail else tail;
    if c.hours > 0 {
      var h := IntToString(c.hours);
      assert FormatTime(seconds) == h + "h " + tail;
      assert (h + "h " + tail)[|h|] == 'h';
    } else {
      assert FormatTime(seconds) == tail;
    }
  }

  /** What a unit letter is worth in seconds; 0 for a character that is not a unit. */
  function Weight(c: char): int
  {
    if c == 'h' then 3600 else if c == 'm' then 60 else if c == 's' then 1 else 0
  }

  /**
   * Reads a formatted duration back: digits build up the current number,
   * a unit letter adds it, weighted, to the total, anything else is skipped.
   */
  function Scan(text: string, total: int, current: int): (r: int)
    decreases |text|
  {
    if text == [] then total
    else
      var c := text[0];
      if '0' <= c <= '9' then Scan(text[1..], total, current * 10 + (c as int - 48))
      else if Weight(c) > 0 then Scan(text[1..], total + current * Weight(c), 0)
      else Scan(text[1..], total, current)
  }

  function ParseTime(text: string): (seconds: int)
  {
    Scan(text, 0, 0)
  }

  lemma {:induction false} ScanNat(n: nat, rest: string, total: int)
    ensures Scan(NatToString(n) + rest, total, 0) == Scan(rest, total, n)
  {
    if n >= 10 {
      var tail := [DigitChar(n % 10)] + rest;
      assert NatToString(n) + rest == NatToString(n / 10) + tail;
      ScanNat(n / 10, tail, total);
      assert tail[1..] == rest;
    } else {
      assert (NatToString(n) + rest)[1..] == rest;
    }
  }

  /** One segment "<n><unit>" followed by `rest`. */
  lemma ScanSegment(n: nat, unit: char, rest: string, total: int)
    requires Weight(unit) > 0 && !('0' <= unit <= '9')
    ensures Scan(NatToString(n) + [unit] + rest, total, 0) == Scan(rest, total + n * Weight(unit), 0)
  {
    assert NatToString(n) + [unit] + rest == NatToString(n) + ([unit] + rest);
    ScanNat(n, [unit] + rest, total);
    assert ([unit] + rest)[1..] == rest;
  }

  lemma ScanSpace(rest: string, total: int)
    ensures Scan([' '] + rest, total, 0) == Scan(rest, total, 0)
  {
    assert ([' '] + rest)[1..] == rest;
  }

  /** A non-negative duration is recovered exactly from its text. */
  lemma ParseFormatTime(seconds: int)
    requires seconds >= 0
    ensures ParseTime(FormatTime(seconds)) == seconds
  {
    var c := Split(seconds);
    var h, m, s := NatToString(c.hours), NatToString(c.minutes), NatToString(c.secs);
    var secsPart := s + "s";
    var minsPart := m + "m " + secsPart;
    var hm := c.hours * 3600 + c.minutes * 60;
    assert Scan(secsPart, hm, 0) == seconds by {
      assert secsPart == s + ['s'] + [];
      ScanSegment(c.secs, 's', [], hm);
    }
    assert Scan(minsPart, c.hours * 3600, 0) == seconds by {
      assert minsPart == m + ['m'] + ([' '] + secsPart);
      ScanSegment(c.minutes, 'm', [' '] + secsPart, c.hours * 3600);
      ScanSpace(secsPart, hm);
    }
    if c.hours > 0 {
      assert FormatTime(seconds) == h + "h " + (m + "m " + s + "s");
      assert m + "m " + s + "s" == minsPart;
      assert FormatTime(seconds) == h + ['h'] + ([' '] + minsPart);
      ScanSegment(c.hours, 'h', [' '] + minsPart, 0);
      ScanSpace(minsPart, c.hours * 3600);
    } else {
      assert FormatTime(seconds) == m + "m " + s + "s" == minsPart;
    }
  }
}
