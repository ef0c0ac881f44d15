/** Instants as text: the UTC form that timestamps are stored in, and why comparing
    the texts compares the instants. */
module IsoTime {
  import Text
  import opened Dates

  datatype Instant = Instant(date: Date, hour: nat, minute: nat, second: nat, micro: nat)

  predicate ValidInstant(i: Instant)
  {
    Valid(i.date) && i.hour < 24 && i.minute < 60 && i.second < 60 && i.micro < 1000000
  }

  /** Microseconds since the day before 1 January of year 1. */
  function Micros(i: Instant): nat
  {
    (((Ordinal(i.date) * 24 + i.hour) * 60 + i.minute) * 60 + i.second) * 1000000 + i.micro
  }

  // -------------------------------------------------------------------- text

  function Digit(n: nat): char
    requires n < 10
  {
    ('0' as int + n) as char
  }

  function Digits(n: nat, width: nat): string
  {
    if width == 0 then "" else Digits(n / 10, width - 1) + [Digit(n % 10)]
  }

  /** Whole seconds leave the fraction out. */
  function Fraction(micro: nat): string
  {
    (if micro == 0 then "" else "." + Digits(micro, 6)) + "+00:00"
  }

  function Clock(i: Instant): string
  {
    Digits(i.hour, 2) + (":" + (Digits(i.minute, 2) + (":" + (Digits(i.second, 2) + Fraction(i.micro)))))
  }

  function IsoText(i: Instant): string
  {
    Digits(i.date.year, 4) + ("-" + (Digits(i.date.month, 2) + ("-" + (Digits(i.date.day, 2) + ("T" + Clock(i))))))
  }

  // ------------------------------------------------------------------- proofs

  function Bound(width: nat): nat
  {
    if width == 0 then 1 else 10 * Bound(width - 1)
  }

  lemma CharFirst(c: char, d: char, x: string, y: string)
    ensures Text.AtMost([c] + x, [d] + y) <==> c < d || (c == d && Text.AtMost(x, y))
  {
    assert ([c] + x)[1..] == x && ([d] + y)[1..] == y;
  }

  /** Numbers of one width compare before whatever follows them. */
  lemma {:induction false} DigitsFirst(a: nat, b: nat, width: nat, x: string, y: string)
    requires a < Bound(width) && b < Bound(width)
    ensures Text.AtMost(Digits(a, width) + x, Digits(b, width) + y) <==> a < b || (a == b && Text.AtMost(x, y))
  {
    if width == 0 {
      assert "" + x == x && "" + y == y;
    } else {
      var (c, d) := (Digit(a % 10), Digit(b % 10));
      DigitsFirst(a / 10, b / 10, width - 1, [c] + x, [d] + y);
      CharFirst(c, d, x, y);
      assert Digits(a, width) + x == Digits(a / 10, width - 1) + ([c] + x);
      assert Digits(b, width) + y == Digits(b / 10, width - 1) + ([d] + y);
    }
  }

  lemma Bounds()
    ensures Bound(2) == 100 && Bound(4) == 10000 && Bound(6) == 1000000
  {
    assert Bound(3) == 1000 && Bound(5) == 100000;
  }

  /** A missing fraction sorts first, because the plus sign is below the point. */
  lemma FractionOrder(a: nat, b: nat)
    requires a < 1000000 && b < 1000000
    ensures Text.AtMost(Fraction(a), Fraction(b)) <==> a <= b
  {
    Bounds();
    var zone := "+00:00";
    if a > 0 && b > 0 {
      DigitsFirst(a, b, 6, zone, zone);
      Text.CommonPrefix(".", Digits(a, 6) + zone, Digits(b, 6) + zone);
      assert Fraction(a) == "." + (Digits(a, 6) + zone) && Fraction(b) == "." + (Digits(b, 6) + zone);
      Text.Total(zone, zone);
    } else if a > 0 {
      assert Fraction(a)[0] == '.' && Fraction(b)[0] == '+';
    } else if b > 0 {
      assert Fraction(a)[0] == '+' && Fraction(b)[0] == '.';
    } else {
      Text.Total(Fraction(a), Fraction(b));
    }
  }

  lemma ClockOrder(a: Instant, b: Instant)
    requires ValidInstant(a) && ValidInstant(b)
    ensures Text.AtMost(Clock(a), Clock(b)) <==>
      a.hour < b.hour || (a.hour == b.hour &&
        (a.minute < b.minute || (a.minute == b.minute &&
          (a.second < b.second || (a.second == b.second && a.micro <= b.micro)))))
  {
    Bounds();
    var (a1, b1) := (Digits(a.second, 2) + Fraction(a.micro), Digits(b.second, 2) + Fraction(b.micro));
    var (a2, b2) := (Digits(a.minute, 2) + (":" + a1), Digits(b.minute, 2) + (":" + b1));
    FractionOrder(a.micro, b.micro);
    DigitsFirst(a.second, b.second, 2, Fraction(a.micro), Fraction(b.micro));
    Text.CommonPrefix(":", a1, b1);
    DigitsFirst(a.minute, b.minute, 2, ":" + a1, ":" + b1);
    Text.CommonPrefix(":", a2, b2);
    DigitsFirst(a.hour, b.hour, 2, ":" + a2, ":" + b2);
  }

  lemma DateFirst(a: Instant, b: Instant)
    requires ValidInstant(a) && ValidInstant(b)
    ensures Text.AtMost(IsoText(a), IsoText(b)) <==>
      (a.date != b.date && NotAfter(a.date, b.date)) || (a.date == b.date && Text.AtMost(Clock(a), Clock(b)))
  {
    Bounds();
    var (a1, b1) := (Digits(a.date.day, 2) + ("T" + Clock(a)), Digits(b.date.day, 2) + ("T" + Clock(b)));
    var (a2, b2) := (Digits(a.date.month, 2) + ("-" + a1), Digits(b.date.month, 2) + ("-" + b1));
    Text.CommonPrefix("T", Clock(a), Clock(b));
    DigitsFirst(a.date.day, b.date.day, 2, "T" + Clock(a), "T" + Clock(b));
    Text.CommonPrefix("-", a1, b1);
    DigitsFirst(a.date.month, b.date.month, 2, "-" + a1, "-" + b1);
    Text.CommonPrefix("-", a2, b2);
    DigitsFirst(a.date.year, b.date.year, 4, "-" + a2, "-" + b2);
  }

  function DayMicros(i: Instant): nat
  {
    ((i.hour * 60 + i.minute) * 60 + i.second) * 1000000 + i.micro
  }

  lemma MicrosSplit(i: Instant)
    requires ValidInstant(i)
    ensures Micros(i) == Ordinal(i.date) * 86400000000 + DayMicros(i) && DayMicros(i) < 86400000000
  {
  }

  /** Comparing two stored timestamps as texts compares their instants. */
  lemma {:induction false} TextOrderIsTimeOrder(a: Instant, b: Instant)
    requires ValidInstant(a) && ValidInstant(b)
    ensures Text.AtMost(IsoText(a), IsoText(b)) <==> Micros(a) <= Micros(b)
  {
    DateFirst(a, b);
    ClockOrder(a, b);
    OrdinalKeepsOrder(a.date, b.date);
    OrdinalKeepsOrder(b.date, a.date);
    MicrosSplit(a);
    MicrosSplit(b);
  }
}
