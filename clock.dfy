/**
 * Calendar times and the two `strftime` formats the backend uses:
 * "%Y%m%d_%H%M%S" in backup names and "%Y-%m-%d %H:%M:%S" in listings.
 * Reading the clock and converting an epoch time to local time happen
 * outside the model; callers pass their results in.
 */
module Clock {

  type Year = y: int | 1 <= y <= 9999 witness 1
  type Month = m: int | 1 <= m <= 12 witness 1
  type Day = d: int | 1 <= d <= 31 witness 1
  type Hour = h: int | 0 <= h <= 23
  type Minute = m: int | 0 <= m <= 59
  type Second = s: int | 0 <= s <= 59

  /** A local calendar time, as a `datetime` holds it. */
  datatype DateTime = DateTime(year: Year, month: Month, day: Day, hour: Hour, minute: Minute, second: Second)

  /** A reading of the clock: seconds since the epoch and the same moment in local time. */
  datatype Instant = Instant(epoch: int, local: DateTime)

  predicate IsDigit(c: char) {
    '0' <= c <= '9'
  }

  function Digit(d: int): (c: char)
    requires 0 <= d <= 9
    ensures IsDigit(c)
  {
    ('0' as int + d) as char
  }

  /** `n` in exactly `width` decimal digits, zero-padded. */
  function Padded(n: nat, width: nat): (s: string)
    ensures |s| == width
    ensures forall i :: 0 <= i < |s| ==> IsDigit(s[i])
  {
    if width == 0 then "" else Padded(n / 10, width - 1) + [Digit(n % 10)]
  }

  /** `dt.strftime("%Y%m%d_%H%M%S")`. */
  function Stamp(dt: DateTime): (s: string)
    ensures |s| == 15 && s[8] == '_'
    ensures forall i :: 0 <= i < 15 && i != 8 ==> IsDigit(s[i])
  {
    Padded(dt.year, 4) + Padded(dt.month, 2) + Padded(dt.day, 2) + "_" +
    Padded(dt.hour, 2) + Padded(dt.minute, 2) + Padded(dt.second, 2)
  }

  /** `dt.strftime("%Y-%m-%d %H:%M:%S")`. */
  function Readable(dt: DateTime): (s: string)
    ensures |s| == 19 && s[4] == '-' && s[7] == '-' && s[10] == ' ' && s[13] == ':' && s[16] == ':'
  {
    Padded(dt.year, 4) + "-" + Padded(dt.month, 2) + "-" + Padded(dt.day, 2) + " " +
    Padded(dt.hour, 2) + ":" + Padded(dt.minute, 2) + ":" + Padded(dt.second, 2)
  }

  /** The value of a zero-padded digit string. */
  function Value(s: string): nat
    requires forall i :: 0 <= i < |s| ==> IsDigit(s[i])
  {
    if s == [] then 0
    else
      assert IsDigit(s[|s| - 1]);
      10 * Value(s[..|s| - 1]) + (s[|s| - 1] as int - '0' as int)
  }

  /** Padding loses nothing for numbers that fit the width. */
  lemma {:induction false} PaddedValue(n: nat, width: nat)
    requires n < Pow10(width)
    ensures Value(Padded(n, width)) == n
  {
    if width > 0 {
      var s := Padded(n, width);
      assert s[..|s| - 1] == Padded(n / 10, width - 1);
      PaddedValue(n / 10, width - 1);
    }
  }

  function Pow10(k: nat): nat {
    if k == 0 then 1 else 10 * Pow10(k - 1)
  }

  lemma Slice3(u: string, v: string, w: string)
    ensures var s := u + v + w;
      s[..|u|] == u && s[|u|..|u| + |v|] == v && s[|u| + |v|..] == w
  {
    var s := u + v + w;
    assert s[..|u|] == u;
    assert s[|u|..|u| + |v|] == v;
    assert s[|u| + |v|..] == w;
  }

  lemma SliceOfSlice(s: string, i: nat, j: nat, k: nat, l: nat)
    requires i <= j <= |s| && k <= l <= j - i
    ensures s[i..j][k..l] == s[i + k..i + l]
  {
    var a, b := s[i..j][k..l], s[i + k..i + l];
    assert |a| == |b|;
    forall m | 0 <= m < |a| ensures a[m] == b[m] {
      assert a[m] == s[i..j][k + m] == s[i + k + m];
    }
  }

  /** Where each field sits in a stamp. */
  lemma StampFields(dt: DateTime)
    ensures var s := Stamp(dt);
      s[0..4] == Padded(dt.year, 4) && s[4..6] == Padded(dt.month, 2) && s[6..8] == Padded(dt.day, 2) &&
      s[9..11] == Padded(dt.hour, 2) && s[11..13] == Padded(dt.minute, 2) && s[13..15] == Padded(dt.second, 2)
  {
    var y, mo, d := Padded(dt.year, 4), Padded(dt.month, 2), Padded(dt.day, 2);
    var h, mi, se := Padded(dt.hour, 2), Padded(dt.minute, 2), Padded(dt.second, 2);
    var s := Stamp(dt);
    var date := y + mo + d;
    var time := h + mi + se;
    assert s == date + "_" + time;
    Slice3(date, "_", time);
    assert s[0..8] == date && s[9..15] == time;
    Slice3(y, mo, d);
    Slice3(h, mi, se);
    assert |date| == 8 && |time| == 6;
    assert date[6..] == date[6..8] && time[4..] == time[4..6];
    assert s[0..8][0..4] == y && s[0..8][4..6] == mo && s[0..8][6..8] == d;
    assert s[9..15][0..2] == h && s[9..15][2..4] == mi && s[9..15][4..6] == se;
    SliceOfSlice(s, 0, 8, 0, 4);
    SliceOfSlice(s, 0, 8, 4, 6);
    SliceOfSlice(s, 0, 8, 6, 8);
    SliceOfSlice(s, 9, 15, 0, 2);
    SliceOfSlice(s, 9, 15, 2, 4);
    SliceOfSlice(s, 9, 15, 4, 6);
  }

  /** A stamp determines its time: two stamps are equal only for equal times. */
  lemma StampInjective(a: DateTime, b: DateTime)
    requires Stamp(a) == Stamp(b)
    ensures a == b
  {
    StampFields(a);
    StampFields(b);
    assert Pow10(2) == 100 && Pow10(4) == 10000;
    PaddedValue(a.year, 4);
    PaddedValue(b.year, 4);
    PaddedValue(a.month, 2);
    PaddedValue(b.month, 2);
    PaddedValue(a.day, 2);
    PaddedValue(b.day, 2);
    PaddedValue(a.hour, 2);
    PaddedValue(b.hour, 2);
    PaddedValue(a.minute, 2);
    PaddedValue(b.minute, 2);
    PaddedValue(a.second, 2);
    PaddedValue(b.second, 2);
  }
}
