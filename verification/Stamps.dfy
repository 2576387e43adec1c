/** UTC timestamps as `datetime.isoformat()` prints them: the fraction is left out when it
    is zero and has six digits otherwise, so the texts differ in length. */
module Stamps {
  import opened Ordering

  datatype Fields = Fields(year: nat, month: nat, day: nat, hour: nat, minute: nat, second: nat, micro: nat)
  {
    predicate InRange() {
      1 <= year <= 9999 && 1 <= month <= 12 && 1 <= day <= 31 && hour < 24 && minute < 60 && second < 60 &&
      micro < 1_000_000
    }
  }

  type Instant = f: Fields | f.InRange() witness Fields(1970, 1, 1, 0, 0, 0, 0)

  /** Time order of two UTC instants: the fields compared from the year down. */
  predicate Before(a: Instant, b: Instant) {
    || a.year < b.year
    || (a.year == b.year && (a.month < b.month
    || (a.month == b.month && (a.day < b.day
    || (a.day == b.day && (a.hour < b.hour
    || (a.hour == b.hour && (a.minute < b.minute
    || (a.minute == b.minute && (a.second < b.second
    || (a.second == b.second && a.micro < b.micro)))))))))))
  }

  function Digit(d: nat): char
    requires d < 10
  {
    ('0' as int + d) as char
  }

  /** `n` in exactly `w` decimal digits. */
  function Pad(n: nat, w: nat): (r: string)
    ensures |r| == w
  {
    if w == 0 then "" else Pad(n / 10, w - 1) + [Digit(n % 10)]
  }

  function Pow10(w: nat): nat {
    if w == 0 then 1 else 10 * Pow10(w - 1)
  }

  function Fraction(micro: nat): string {
    if micro == 0 then "" else "." + Pad(micro, 6)
  }

  const OFFSET := "+00:00"

  function SecondText(t: Instant): string { Pad(t.second, 2) + (Fraction(t.micro) + OFFSET) }
  function MinuteText(t: Instant): string { Pad(t.minute, 2) + (":" + SecondText(t)) }
  function HourText(t: Instant): string { Pad(t.hour, 2) + (":" + MinuteText(t)) }
  function DayText(t: Instant): string { Pad(t.day, 2) + ("T" + HourText(t)) }
  function MonthText(t: Instant): string { Pad(t.month, 2) + ("-" + DayText(t)) }

  /** `isoformat()` of a UTC datetime. */
  function IsoFormat(t: Instant): string {
    Pad(t.year, 4) + ("-" + MonthText(t))
  }

  lemma {:induction false} EqualLengthPrefix(a: string, b: string, u: string, v: string)
    requires |a| == |b|
    ensures StrLess(a + u, b + v) <==> StrLess(a, b) || (a == b && StrLess(u, v))
  {
    if a == [] {
      assert a + u == u && b + v == v;
    } else {
      assert (a + u)[1..] == a[1..] + u && (b + v)[1..] == b[1..] + v;
      assert a == [a[0]] + a[1..] && b == [b[0]] + b[1..];
      EqualLengthPrefix(a[1..], b[1..], u, v);
    }
  }

  lemma {:induction false} PadOrder(m: nat, n: nat, w: nat)
    requires m < Pow10(w) && n < Pow10(w)
    ensures StrLess(Pad(m, w), Pad(n, w)) <==> m < n
    ensures Pad(m, w) == Pad(n, w) <==> m == n
  {
    if w > 0 {
      PadOrder(m / 10, n / 10, w - 1);
      EqualLengthPrefix(Pad(m / 10, w - 1), Pad(n / 10, w - 1), [Digit(m % 10)], [Digit(n % 10)]);
      assert Pad(m, w)[..w - 1] == Pad(m / 10, w - 1) && Pad(n, w)[..w - 1] == Pad(n / 10, w - 1);
      assert Pad(m, w)[w - 1] == Digit(m % 10) && Pad(n, w)[w - 1] == Digit(n % 10);
    }
  }

  /** A fixed-width field decides the comparison unless it is equal on both sides. */
  lemma {:induction false} FieldOrder(m: nat, n: nat, w: nat, u: string, v: string)
    requires m < Pow10(w) && n < Pow10(w)
    ensures StrLess(Pad(m, w) + u, Pad(n, w) + v) <==> m < n || (m == n && StrLess(u, v))
  {
    PadOrder(m, n, w);
    EqualLengthPrefix(Pad(m, w), Pad(n, w), u, v);
  }

  lemma {:induction false} SeparatorOrder(c: char, u: string, v: string)
    ensures StrLess([c] + u, [c] + v) <==> StrLess(u, v)
  {
    EqualLengthPrefix([c], [c], u, v);
  }

  lemma {:induction false} Powers()
    ensures Pow10(2) == 100 && Pow10(4) == 10_000 && Pow10(6) == 1_000_000
  {}

  /** The only place where lengths differ: `+` sorts before `.`, so no fraction sorts first. */
  lemma {:induction false} FractionOrder(m: nat, n: nat)
    requires m < 1_000_000 && n < 1_000_000
    ensures StrLess(Fraction(m) + OFFSET, Fraction(n) + OFFSET) <==> m < n
  {
    Powers();
    if m > 0 && n > 0 {
      assert Fraction(m) + OFFSET == "." + (Pad(m, 6) + OFFSET);
      assert Fraction(n) + OFFSET == "." + (Pad(n, 6) + OFFSET);
      SeparatorOrder('.', Pad(m, 6) + OFFSET, Pad(n, 6) + OFFSET);
      FieldOrder(m, n, 6, OFFSET, OFFSET);
      StrLessIrreflexive(OFFSET);
    } else {
      StrLessIrreflexive(OFFSET);
      assert Fraction(0) + OFFSET == OFFSET;
    }
  }

  lemma {:induction false} ClockOrder(a: Instant, b: Instant)
    ensures StrLess(HourText(a), HourText(b)) <==>
            a.hour < b.hour || (a.hour == b.hour && (a.minute < b.minute || (a.minute == b.minute &&
            (a.second < b.second || (a.second == b.second && a.micro < b.micro)))))
  {
    Powers();
    FractionOrder(a.micro, b.micro);
    FieldOrder(a.second, b.second, 2, Fraction(a.micro) + OFFSET, Fraction(b.micro) + OFFSET);
    SeparatorOrder(':', SecondText(a), SecondText(b));
    FieldOrder(a.minute, b.minute, 2, ":" + SecondText(a), ":" + SecondText(b));
    SeparatorOrder(':', MinuteText(a), MinuteText(b));
    FieldOrder(a.hour, b.hour, 2, ":" + MinuteText(a), ":" + MinuteText(b));
  }

  /** Comparing the printed texts is comparing the instants, for every pair of instants. */
  lemma {:induction false} TextOrderIsTimeOrder(a: Instant, b: Instant)
    ensures StrLess(IsoFormat(a), IsoFormat(b)) <==> Before(a, b)
  {
    Powers();
    ClockOrder(a, b);
    SeparatorOrder('T', HourText(a), HourText(b));
    FieldOrder(a.day, b.day, 2, "T" + HourText(a), "T" + HourText(b));
    SeparatorOrder('-', DayText(a), DayText(b));
    FieldOrder(a.month, b.month, 2, "-" + DayText(a), "-" + DayText(b));
    SeparatorOrder('-', MonthText(a), MonthText(b));
    FieldOrder(a.year, b.year, 4, "-" + MonthText(a), "-" + MonthText(b));
  }

  /** Distinct instants print differently, so reading a stamp back loses nothing. */
  lemma {:induction false} IsoFormatInjective(a: Instant, b: Instant)
    requires IsoFormat(a) == IsoFormat(b)
    ensures a == b
  {
    TextOrderIsTimeOrder(a, b);
    TextOrderIsTimeOrder(b, a);
    StrLessIrreflexive(IsoFormat(a));
  }
}
