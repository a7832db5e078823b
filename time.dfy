/**
  Time accounting and the progress display of cdda-player.cpp: C integer
  division as the player's `int` arithmetic performs it, the sector rate of
  audio CDs, a track's total and elapsed seconds, and `print_time`, which
  writes a number of seconds as `MM:SS` followed by a carriage return.
*/
module Time {

  import opened Wrappers

  /** Audio-CD sector rate (IEC 60908, "Red Book"): 75 sectors per second. */
  const SECTORS_PER_SECOND: nat := 75

  /** C's `/` on `int`: the quotient truncated toward zero. */
  function CDiv(a: int, d: nat): int
    requires d > 0
  {
    if a >= 0 then a / d else -((-a) / d)
  }

  /** C's `%` on `int`: the remainder carries the sign of the dividend. */
  function CMod(a: int, d: nat): int
    requires d > 0
  {
    a - CDiv(a, d) * d
  }

  /** `total_seconds` of a track whose sectors are `first..last` (cdda-player.cpp:110). */
  function TotalSeconds(first: int, last: int): (r: int)
    ensures first <= last + 1 ==> 0 <= r && r * SECTORS_PER_SECOND <= last - first + 1 < (r + 1) * SECTORS_PER_SECOND
    ensures first > last + 1 ==> r <= 0 && (r - 1) * SECTORS_PER_SECOND < last - first + 1
                                 && last - first + 1 <= r * SECTORS_PER_SECOND
  {
    CDiv(last - first + 1, SECTORS_PER_SECOND)
  }

  /** The test of cdda-player.cpp:136: sector `lsn` starts a new second of the track. */
  predicate IsSecondBoundary(first: int, lsn: int)
  {
    CMod(lsn - first, SECTORS_PER_SECOND) == 0
  }

  /** `elapsed_seconds` recomputed at sector `lsn` (cdda-player.cpp:137). */
  function ElapsedSeconds(first: int, lsn: int): (r: int)
    ensures first <= lsn ==> 0 <= r && r * SECTORS_PER_SECOND <= lsn - first
    ensures IsSecondBoundary(first, lsn) ==> r * SECTORS_PER_SECOND == lsn - first
  {
    CDiv(lsn - first, SECTORS_PER_SECOND)
  }

  /** The elapsed time shown inside a track never exceeds the track's total time. */
  lemma ElapsedWithinTotal(first: int, lsn: int, last: int)
    requires first <= lsn <= last
    ensures 0 <= ElapsedSeconds(first, lsn) <= TotalSeconds(first, last)
  {
  }

  // ---------------------------------------------------------------------------
  // Decimal text, as `std::ostream << int` writes it.

  predicate IsDigit(c: char) { '0' <= c <= '9' }

  predicate IsDigits(s: string) { forall i :: 0 <= i < |s| ==> IsDigit(s[i]) }

  /** The number a string of decimal digits denotes (the empty string denotes 0). */
  function ValueOf(s: string): nat
    requires IsDigits(s)
  {
    if s == [] then 0 else ValueOf(s[..|s| - 1]) * 10 + (s[|s| - 1] as int - '0' as int)
  }

  function DigitChar(d: nat): (c: char)
    requires d < 10
    ensures IsDigit(c) && c as int - '0' as int == d
  {
    ('0' as int + d) as char
  }

  /** The shortest decimal numeral of `n`, without sign or leading zeros. */
  function Digits(n: nat): (s: string)
    ensures 1 <= |s| && IsDigits(s) && ValueOf(s) == n
    ensures n < 10 <==> |s| == 1
    ensures 10 <= n < 100 <==> |s| == 2
    ensures n >= 10 ==> s[0] != '0'
  {
    if n < 10 then [DigitChar(n)]
    else
      var s := Digits(n / 10) + [DigitChar(n % 10)];
      assert s[..|s| - 1] == Digits(n / 10);
      s
  }

  /** `std::ostream << int`: a minus sign for negative values, then the digits. */
  function Decimal(n: int): (s: string)
    ensures n >= 0 ==> s == Digits(n)
    ensures n < 0 ==> s == ['-'] + Digits(-n)
  {
    if n < 0 then "-" + Digits(-n) else Digits(n)
  }

  /** `std::setw(2) << std::setfill('0')` with the default right adjustment:
      zeros are inserted in front of the whole field, sign included. */
  function Pad2(s: string): (p: string)
    ensures |p| == if |s| < 2 then 2 else |s|
    ensures p[|p| - |s|..] == s
    ensures forall i :: 0 <= i < |p| - |s| ==> p[i] == '0'
  {
    if |s| < 2 then seq(2 - |s|, _ => '0') + s else s
  }

  /** The text `print_time(seconds)` writes (cdda-player.cpp:18-22). */
  function PrintTime(seconds: int): string
  {
    Pad2(Decimal(CDiv(seconds, 60))) + ":" + Pad2(Decimal(CMod(seconds, 60))) + "\r"
  }

  /** Reads back a `MM:SS\r` field: a run of digits, a colon, exactly two digits, a carriage return. */
  function ReadTime(t: string): Option<(nat, nat)>
  {
    if |t| >= 5 && t[|t| - 4] == ':' && t[|t| - 1] == '\r'
       && IsDigits(t[..|t| - 4]) && IsDigits(t[|t| - 3..|t| - 1])
    then Some((ValueOf(t[..|t| - 4]), ValueOf(t[|t| - 3..|t| - 1])))
    else None
  }

  lemma ReadFields(mm: string, ss: string)
    requires IsDigits(mm) && |mm| >= 2 && IsDigits(ss) && |ss| == 2
    ensures ReadTime(mm + ":" + ss + "\r") == Some((ValueOf(mm), ValueOf(ss)))
    ensures var t := mm + ":" + ss + "\r";
            |t| == |mm| + 4 && t[|t| - 4] == ':' && t[|t| - 1] == '\r'
  {
    var t := mm + ":" + ss + "\r";
    assert |t| == |mm| + 4 && t[|t| - 4] == ':' && t[|t| - 1] == '\r';
    assert t[..|t| - 4] == mm;
    assert t[|t| - 3..|t| - 1] == ss;
  }

  /** Zeros in front of a numeral do not change its value. */
  lemma {:induction false} LeadingZero(s: string)
    requires IsDigits(s)
    ensures IsDigits(['0'] + s) && ValueOf(['0'] + s) == ValueOf(s)
  {
    var z := ['0'] + s;
    if s != [] {
      assert z[..|z| - 1] == ['0'] + s[..|s| - 1];
      LeadingZero(s[..|s| - 1]);
    }
  }

  lemma PaddedValue(n: nat)
    ensures IsDigits(Pad2(Digits(n))) && ValueOf(Pad2(Digits(n))) == n
    ensures n < 100 ==> |Pad2(Digits(n))| == 2
    ensures n >= 10 ==> Pad2(Digits(n)) == Digits(n)
  {
    if n < 10 {
      assert Pad2(Digits(n)) == ['0'] + Digits(n);
      LeadingZero(Digits(n));
    }
  }

  /** For a non-negative count, C's `/` and `%` are Dafny's, and both fields are
      plain numerals padded to two places. */
  lemma PrintTimeFields(seconds: int)
    requires seconds >= 0
    ensures PrintTime(seconds) == Pad2(Digits(seconds / 60)) + ":" + Pad2(Digits(seconds % 60)) + "\r"
  {
  }

  /** For a non-negative count, `print_time` writes the minutes (at least two digits),
      a colon and the seconds below 60 as exactly two digits, and reading the text
      back gives minutes and seconds that make up the count again. */
  lemma PrintTimeRoundTrip(seconds: int)
    requires seconds >= 0
    ensures ReadTime(PrintTime(seconds)) == Some((seconds / 60, seconds % 60))
    ensures var t := PrintTime(seconds);
            |t| >= 6 && t[|t| - 4] == ':' && t[|t| - 1] == '\r'
    ensures var r := ReadTime(PrintTime(seconds));
            r.Some? && r.value.1 < 60 && r.value.0 * 60 + r.value.1 == seconds
  {
    var m, s := seconds / 60, seconds % 60;
    PaddedValue(m);
    PaddedValue(s);
    var mm, ss := Pad2(Digits(m)), Pad2(Digits(s));
    PrintTimeFields(seconds);
    ReadFields(mm, ss);
  }
}
