/**
 * The wall clock as an input. PHP's time() is an int of seconds and date()
 * renders a broken-down local time; the model takes both as parameters and
 * renders the date() formats the program uses.
 */
module Clock {
  import opened Text

  /** A broken-down local time, as date() sees it. */
  datatype DateTime = DateTime(year: nat, month: nat, day: nat, hour: nat, minute: nat, second: nat)

  predicate ValidDateTime(t: DateTime)
  {
    && t.year <= 9999
    && 1 <= t.month <= 12 && 1 <= t.day <= 31
    && t.hour < 24 && t.minute < 60 && t.second < 60
  }

  /** `n` in decimal, left-padded with zeros to `w` digits (date()'s Y, m, d, H, i, s). */
  function ZeroPad(n: nat, w: nat): string
  {
    var d := NatToString(n);
    if |d| >= w then d else Repeat('0', w - |d|) + d
  }

  /** The padded number is all digits. */
  lemma ZeroPadDigits(n: nat, w: nat)
    ensures forall i :: 0 <= i < |ZeroPad(n, w)| ==> IsDigit(ZeroPad(n, w)[i])
  {
    var d := NatToString(n);
    forall i | 0 <= i < |ZeroPad(n, w)| ensures IsDigit(ZeroPad(n, w)[i]) {
      if |d| < w && i >= w - |d| {
        assert ZeroPad(n, w)[i] == d[i - (w - |d|)];
      }
    }
  }

  lemma {:induction false} NatToStringLength(n: nat, k: nat, p: nat)
    requires p >= 1 && n < p
    requires (k == 1 && p == 10) || (k == 2 && p == 100) || (k == 3 && p == 1000) || (k == 4 && p == 10000)
    ensures |NatToString(n)| <= k
  {
    if n >= 10 {
      NatToStringLength(n / 10, k - 1, p / 10);
    }
  }

  lemma ZeroPadLength(n: nat, k: nat, p: nat)
    requires p >= 1 && n < p
    requires (k == 2 && p == 100) || (k == 4 && p == 10000)
    ensures |ZeroPad(n, k)| == k
  {
    NatToStringLength(n, k, p);
  }

  /** date('YmdHis'). */
  function Compact(t: DateTime): string
  {
    ZeroPad(t.year, 4) + ZeroPad(t.month, 2) + ZeroPad(t.day, 2)
      + ZeroPad(t.hour, 2) + ZeroPad(t.minute, 2) + ZeroPad(t.second, 2)
  }

  /** date('Y-m-d'). */
  function DateText(t: DateTime): string
  {
    ZeroPad(t.year, 4) + "-" + ZeroPad(t.month, 2) + "-" + ZeroPad(t.day, 2)
  }

  /** date('H:i:s'). */
  function TimeText(t: DateTime): string
  {
    ZeroPad(t.hour, 2) + ":" + ZeroPad(t.minute, 2) + ":" + ZeroPad(t.second, 2)
  }

  /** date('Y-m-d H:i:s'). */
  function Stamp(t: DateTime): string
  {
    DateText(t) + " " + TimeText(t)
  }

  /** date('YmdHis') of a valid time is exactly 14 decimal digits. */
  lemma CompactIsFourteenDigits(t: DateTime)
    requires ValidDateTime(t)
    ensures |Compact(t)| == 14
    ensures forall i :: 0 <= i < 14 ==> IsDigit(Compact(t)[i])
  {
    ZeroPadLength(t.year, 4, 10000);
    ZeroPadLength(t.month, 2, 100);
    ZeroPadLength(t.day, 2, 100);
    ZeroPadLength(t.hour, 2, 100);
    ZeroPadLength(t.minute, 2, 100);
    ZeroPadLength(t.second, 2, 100);
    ZeroPadDigits(t.year, 4);
    ZeroPadDigits(t.month, 2);
    ZeroPadDigits(t.day, 2);
    ZeroPadDigits(t.hour, 2);
    ZeroPadDigits(t.minute, 2);
    ZeroPadDigits(t.second, 2);
  }

  /** date('Y-m-d H:i:s') of a valid time has the fixed 19-character layout. */
  lemma StampLayout(t: DateTime)
    requires ValidDateTime(t)
    ensures |Stamp(t)| == 19
    ensures Stamp(t)[4] == '-' && Stamp(t)[7] == '-' && Stamp(t)[10] == ' '
    ensures Stamp(t)[13] == ':' && Stamp(t)[16] == ':'
  {
    ZeroPadLength(t.year, 4, 10000);
    ZeroPadLength(t.month, 2, 100);
    ZeroPadLength(t.day, 2, 100);
    ZeroPadLength(t.hour, 2, 100);
    ZeroPadLength(t.minute, 2, 100);
    ZeroPadLength(t.second, 2, 100);
  }
}
