/** Instants, their UTC calendar fields, and the fixed-width text a catalog stores them as. */
module UtcText {
  import opened Foundations
  import opened Decimals

  // ------------------------------------------------------------------- calendar

  /** A datetime in UTC, years 1 to 9999. */
  datatype Moment = Moment(year: int, month: int, day: int, hour: int, minute: int, second: int, micro: int)

  predicate Leap(y: int) { y % 4 == 0 && (y % 100 != 0 || y % 400 == 0) }

  function DaysInYear(y: int): (n: nat)
    ensures n == 365 || n == 366
  {
    if Leap(y) then 366 else 365
  }

  function DaysInMonth(y: int, m: int): (n: nat)
    requires 1 <= m <= 12
    ensures 28 <= n <= 31
  {
    if m == 2 then (if Leap(y) then 29 else 28)
    else if m == 4 || m == 6 || m == 9 || m == 11 then 30 else 31
  }

  predicate Valid(t: Moment) {
    && 1 <= t.year <= 9999 && 1 <= t.month <= 12 && 1 <= t.day <= DaysInMonth(t.year, t.month)
    && 0 <= t.hour < 24 && 0 <= t.minute < 60 && 0 <= t.second < 60 && 0 <= t.micro < 1000000
  }

  function DaysBeforeYear(y: int): (n: nat)
    requires y >= 1
  {
    if y == 1 then 0 else DaysBeforeYear(y - 1) + DaysInYear(y - 1)
  }

  function DaysBeforeMonth(y: int, m: int): (n: nat)
    requires 1 <= m <= 13
  {
    if m == 1 then 0 else DaysBeforeMonth(y, m - 1) + DaysInMonth(y, m - 1)
  }

  /** Days since the day before 1 January of year 1. */
  function Ordinal(t: Moment): (n: nat)
    requires Valid(t)
  {
    DaysBeforeYear(t.year) + DaysBeforeMonth(t.year, t.month) + t.day
  }

  /** Microseconds since the calendar began: two moments are ordered as their instants are. */
  function Instant(t: Moment): (n: nat)
    requires Valid(t)
  {
    (((Ordinal(t) * 24 + t.hour) * 60 + t.minute) * 60 + t.second) * 1000000 + t.micro
  }

  lemma YearIsItsMonths(y: int)
    ensures DaysBeforeMonth(y, 13) == DaysInYear(y)
  {
    assert DaysBeforeMonth(y, 2) == 31;
    assert DaysBeforeMonth(y, 4) == 31 + DaysInMonth(y, 2) + 31;
    assert DaysBeforeMonth(y, 6) == DaysBeforeMonth(y, 4) + 61;
    assert DaysBeforeMonth(y, 8) == DaysBeforeMonth(y, 6) + 61;
    assert DaysBeforeMonth(y, 10) == DaysBeforeMonth(y, 8) + 61;
    assert DaysBeforeMonth(y, 12) == DaysBeforeMonth(y, 10) + 61;
  }

  /** A multiple of `d` is reached exactly where the remainder is zero. */
  lemma OneMoreMultiple(n: int, d: int)
    requires n >= 1 && d >= 1
    ensures n / d - (n - 1) / d == if n % d == 0 then 1 else 0
  {
    var q, r := n / d, n % d;
    assert n == q * d + r;
    if r == 0 {
      assert n - 1 == (q - 1) * d + (d - 1);
      QuotientIs(n - 1, d, q - 1, d - 1);
    } else {
      assert n - 1 == q * d + (r - 1);
      QuotientIs(n - 1, d, q, r - 1);
    }
  }

  lemma QuotientIs(n: int, d: int, q: int, r: int)
    requires d >= 1 && n == q * d + r && 0 <= r < d
    ensures n / d == q
  {
    var gap := n / d - q;
    assert gap * d == r - n % d;
    assert gap >= 1 ==> gap * d >= d;
    assert gap <= -1 ==> gap * d <= -d;
  }

  lemma LongYears(y: int)
    requires y >= 1
    ensures DaysInYear(y) == 365 + (y / 4 - (y - 1) / 4) - (y / 100 - (y - 1) / 100) + (y / 400 - (y - 1) / 400)
  {
    OneMoreMultiple(y, 4);
    OneMoreMultiple(y, 100);
    OneMoreMultiple(y, 400);
    assert y % 400 == 0 ==> y % 100 == 0;
    assert y % 100 == 0 ==> y % 4 == 0;
  }

  /** The Gregorian calendar in closed form: every fourth year is longer, but for three centuries in four. */
  lemma {:induction false} YearsInClosedForm(y: int)
    requires y >= 1
    ensures DaysBeforeYear(y) == 365 * (y - 1) + (y - 1) / 4 - (y - 1) / 100 + (y - 1) / 400
  {
    hide DaysInYear;
    if y > 1 {
      YearsInClosedForm(y - 1);
      LongYears(y - 1);
    }
  }

  /** Thirty and thirty-one days alternate from March on, in runs of five months. */
  lemma MonthsInClosedForm(y: int, m: int)
    requires 1 <= m <= 12
    ensures DaysBeforeMonth(y, m) == if m <= 2 then 31 * (m - 1)
                                     else (153 * (m - 3) + 2) / 5 + 59 + (if DaysInYear(y) == 366 then 1 else 0)
  {
    assert DaysBeforeMonth(y, 2) == 31;
    assert DaysBeforeMonth(y, 3) == 59 + (if DaysInYear(y) == 366 then 1 else 0);
    assert m >= 5 ==> DaysBeforeMonth(y, 5) == DaysBeforeMonth(y, 3) + 61;
    assert m >= 7 ==> DaysBeforeMonth(y, 7) == DaysBeforeMonth(y, 5) + 61;
    assert m >= 9 ==> DaysBeforeMonth(y, 9) == DaysBeforeMonth(y, 7) + 62;
    assert m >= 11 ==> DaysBeforeMonth(y, 11) == DaysBeforeMonth(y, 9) + 61;
  }

  lemma {:induction false} MonthsRise(y: int, m: int, n: int)
    requires 1 <= m < n <= 13
    ensures DaysBeforeMonth(y, m) + DaysInMonth(y, m) <= DaysBeforeMonth(y, n)
    decreases n
  {
    if m < n - 1 { MonthsRise(y, m, n - 1); }
  }

  lemma {:induction false} YearsRise(y: int, z: int)
    requires 1 <= y < z
    ensures DaysBeforeYear(y) + DaysInYear(y) <= DaysBeforeYear(z)
    decreases z
  {
    if y < z - 1 { YearsRise(y, z - 1); }
  }

  predicate DateBefore(a: Moment, b: Moment) {
    a.year < b.year || (a.year == b.year && (a.month < b.month || (a.month == b.month && a.day < b.day)))
  }

  lemma EarlierDate(a: Moment, b: Moment)
    requires Valid(a) && Valid(b) && DateBefore(a, b)
    ensures Ordinal(a) < Ordinal(b)
  {
    if a.year < b.year {
      YearIsItsMonths(a.year);
      MonthsRise(a.year, a.month, 13);
      YearsRise(a.year, b.year);
    } else if a.month < b.month {
      MonthsRise(a.year, a.month, b.month);
    }
  }

  // --------------------------------------------------------- instants to moments

  /** The year of the `n`-th day counted from the start of year `y`, and its day in that year. */
  function YearOf(n: nat, y: int): (r: (int, nat))
    requires n >= 1 && y >= 1
    ensures y <= r.0 && 1 <= r.1 <= DaysInYear(r.0)
    ensures DaysBeforeYear(r.0) + r.1 == DaysBeforeYear(y) + n
    decreases n
  {
    if n <= DaysInYear(y) then (y, n) else YearOf(n - DaysInYear(y), y + 1)
  }

  function MonthOf(n: nat, y: int, m: int): (r: (int, nat))
    requires 1 <= m <= 12 && 1 <= n && DaysBeforeMonth(y, m) + n <= DaysBeforeMonth(y, 13)
    ensures m <= r.0 <= 12 && 1 <= r.1 <= DaysInMonth(y, r.0)
    ensures DaysBeforeMonth(y, r.0) + r.1 == DaysBeforeMonth(y, m) + n
    decreases 13 - m
  {
    if n <= DaysInMonth(y, m) then (m, n) else MonthOf(n - DaysInMonth(y, m), y, m + 1)
  }

  const DAY: int := 86400000000

  /** The instants that datetimes can hold. */
  predicate Representable(t: int) { t >= DAY && YearOf(t / DAY, 1).0 <= 9999 }

  lemma YearWithin(n: nat)
    requires n >= 1
    ensures YearOf(n, 1).0 <= 9999 <==> n <= 3652059
  {
    var y := YearOf(n, 1).0;
    YearsInClosedForm(10000);
    hide YearOf, DaysBeforeYear;
    if y < 10000 { YearsRise(y, 10000); }
    if y > 10000 { YearsRise(10000, y); }
  }

  /** The first day of year 1 has number 1, the last day of year 9999 has number 3652059. */
  lemma RepresentableExactly(t: int)
    ensures Representable(t) <==> 86400000000 <= t < 3652060 * 86400000000
  {
    hide YearOf;
    if t >= DAY { YearWithin(t / DAY); }
  }

  /** The time of day a number of microseconds stands for: hour, minute, second, microsecond. */
  function Clock(u: nat): (c: (int, int, int, int))
    requires u < DAY
    ensures 0 <= c.0 < 24 && 0 <= c.1 < 60 && 0 <= c.2 < 60 && 0 <= c.3 < 1000000
    ensures ((c.0 * 60 + c.1) * 60 + c.2) * 1000000 + c.3 == u
  {
    var seconds := u / 1000000;
    var minutes := seconds / 60;
    (minutes / 60, minutes % 60, seconds % 60, u % 1000000)
  }

  function MomentOf(t: int): (m: Moment)
    requires Representable(t)
    ensures Valid(m) && Instant(m) == t
  {
    var y := YearOf(t / DAY, 1);
    YearIsItsMonths(y.0);
    var d := MonthOf(y.1, y.0, 1);
    var c := Clock(t % DAY);
    var m := Moment(y.0, d.0, d.1, c.0, c.1, c.2, c.3);
    assert Ordinal(m) == t / DAY;
    m
  }

  // ----------------------------------------------------------------------- text

  /** Field widths and the text after each field: `YYYY-MM-DDTHH:MM:SS.ffffff+00:00`. */
  const LAYOUT: seq<(nat, string)> :=
    [(4, "-"), (2, "-"), (2, "T"), (2, ":"), (2, ":"), (2, "."), (6, "+00:00")]

  function Values(t: Moment): seq<int> { [t.year, t.month, t.day, t.hour, t.minute, t.second, t.micro] }

  predicate Fits(values: seq<int>, layout: seq<(nat, string)>) {
    |values| == |layout| && forall k :: 0 <= k < |values| ==> 0 <= values[k] < Pow10(layout[k].0)
  }

  function Render(values: seq<int>, layout: seq<(nat, string)>): string
    requires Fits(values, layout)
  {
    if values == [] then ""
    else
      assert Fits(values[1..], layout[1..]);
      Padded(values[0], layout[0].0) + (layout[0].1 + Render(values[1..], layout[1..]))
  }

  lemma ValidFits(t: Moment)
    requires Valid(t)
    ensures Fits(Values(t), LAYOUT)
  {
    assert Pow10(2) == 100 && Pow10(4) == 100 * Pow10(2) && Pow10(6) == 100 * Pow10(4);
  }

  function Text(t: Moment): string
    requires Valid(t)
  {
    ValidFits(t);
    Render(Values(t), LAYOUT)
  }

  predicate Lex(a: seq<int>, b: seq<int>)
    requires |a| == |b|
  {
    a == [] || a[0] < b[0] || (a[0] == b[0] && Lex(a[1..], b[1..]))
  }

  lemma RenderHead(a: seq<int>, layout: seq<(nat, string)>)
    requires Fits(a, layout) && a != []
    ensures Fits(a[1..], layout[1..])
    ensures Render(a, layout) == Padded(a[0], layout[0].0) + (layout[0].1 + Render(a[1..], layout[1..]))
  {
    hide Padded, Pow10;
  }

  lemma {:induction false} RenderOrder(a: seq<int>, b: seq<int>, layout: seq<(nat, string)>)
    requires Fits(a, layout) && Fits(b, layout)
    ensures StrLe(Render(a, layout), Render(b, layout)) <==> Lex(a, b)
    ensures Render(a, layout) == Render(b, layout) <==> a == b
  {
    if a == [] {
      assert b == [];
    } else {
      RenderHead(a, layout);
      RenderHead(b, layout);
      hide Render, StrLe, Pow10, Padded;
      RenderOrder(a[1..], b[1..], layout[1..]);
      FieldOrder(a[0], b[0], layout[0].0, layout[0].1, Render(a[1..], layout[1..]), Render(b[1..], layout[1..]));
      assert a == [a[0]] + a[1..] && b == [b[0]] + b[1..];
    }
  }

  lemma FieldOrder(m: nat, n: nat, w: nat, sep: string, x: string, y: string)
    requires m < Pow10(w) && n < Pow10(w)
    ensures StrLe(Padded(m, w) + (sep + x), Padded(n, w) + (sep + y)) <==> m < n || (m == n && StrLe(x, y))
    ensures Padded(m, w) + (sep + x) == Padded(n, w) + (sep + y) <==> m == n && x == y
  {
    PaddedOrder(m, n, w);
    StrLeConcat(Padded(m, w), Padded(n, w), sep + x, sep + y);
    StrLeConcat(sep, sep, x, y);
    SameTail(Padded(m, w), Padded(n, w), sep + x, sep + y);
    SameTail(sep, sep, x, y);
  }

  lemma SameTail(a: string, b: string, x: string, y: string)
    requires |a| == |b|
    ensures a + x == b + y <==> a == b && x == y
  {
    if a + x == b + y {
      assert a == (a + x)[..|a|] && b == (b + y)[..|b|];
      assert x == (a + x)[|a|..] && y == (b + y)[|b|..];
    }
  }

  lemma LexIsInstantOrder(a: Moment, b: Moment)
    requires Valid(a) && Valid(b)
    ensures Lex(Values(a), Values(b)) <==> Instant(a) <= Instant(b)
    ensures Instant(a) == Instant(b) ==> a == b
  {
    if DateBefore(a, b) {
      EarlierDate(a, b);
    } else if DateBefore(b, a) {
      EarlierDate(b, a);
    } else {
      assert Ordinal(a) == Ordinal(b);
    }
    LexUnfolds(a, b);
  }

  lemma LexUnfolds(a: Moment, b: Moment)
    ensures Lex(Values(a), Values(b)) <==>
            || DateBefore(a, b)
            || (a.year == b.year && a.month == b.month && a.day == b.day
                && (a.hour < b.hour
                    || (a.hour == b.hour && (a.minute < b.minute
                        || (a.minute == b.minute && (a.second < b.second
                            || (a.second == b.second && a.micro <= b.micro)))))))
  {
    var x, y := Values(a), Values(b);
    assert x[0..] == x && y[0..] == y && x[7..] == [] && y[7..] == [];
    LexDrop(x, y, 0);
    LexDrop(x, y, 1);
    LexDrop(x, y, 2);
    LexDrop(x, y, 3);
    LexDrop(x, y, 4);
    LexDrop(x, y, 5);
    LexDrop(x, y, 6);
    hide Lex;
  }

  lemma LexDrop(x: seq<int>, y: seq<int>, k: nat)
    requires k < |x| == |y|
    ensures Lex(x[k..], y[k..]) <==> x[k] < y[k] || (x[k] == y[k] && Lex(x[k + 1..], y[k + 1..]))
  {
    assert x[k..][1..] == x[k + 1..] && y[k..][1..] == y[k + 1..];
  }

  /** The text stored for an instant. */
  function Stamp(t: int): string
    requires Representable(t)
  {
    Text(MomentOf(t))
  }

  /** Comparing stored text is comparing instants, and equal text means the same instant. */
  lemma StampOrder(s: int, t: int)
    requires Representable(s) && Representable(t)
    ensures StrLe(Stamp(s), Stamp(t)) <==> s <= t
    ensures Stamp(s) == Stamp(t) <==> s == t
  {
    var a, b := MomentOf(s), MomentOf(t);
    ValidFits(a);
    ValidFits(b);
    RenderOrder(Values(a), Values(b), LAYOUT);
    LexIsInstantOrder(a, b);
  }

  // ------------------------------------------------------------------ reading back

  /** The values in text of the given layout, or nothing when the text has another shape. */
  function ParseFields(s: string, layout: seq<(nat, string)>): Option<seq<int>> {
    if layout == [] then (if s == "" then Some([]) else None)
    else
      var w, sep := layout[0].0, layout[0].1;
      if |s| < w + |sep| || !AllDigits(s[..w]) || s[w..w + |sep|] != sep then None
      else
        match ParseFields(s[w + |sep|..], layout[1..])
        case None => None
        case Some(rest) => Some([Value(s[..w])] + rest)
  }

  lemma ParseOneField(a: string, rest: string, layout: seq<(nat, string)>)
    requires layout != [] && |a| == layout[0].0 && AllDigits(a)
    ensures ParseFields(a + (layout[0].1 + rest), layout)
         == match ParseFields(rest, layout[1..])
            case None => None
            case Some(values) => Some([Value(a)] + values)
  {
    var s, sep := a + (layout[0].1 + rest), layout[0].1;
    assert s[..|a|] == a && s[|a|..|a| + |sep|] == sep && s[|a| + |sep|..] == rest;
    hide AllDigits, Value;
  }

  lemma {:induction false} ParseRendered(values: seq<int>, layout: seq<(nat, string)>)
    requires Fits(values, layout)
    ensures ParseFields(Render(values, layout), layout) == Some(values)
  {
    if values != [] {
      RenderHead(values, layout);
      PaddedRoundTrip(values[0], layout[0].0);
      ParseOneField(Padded(values[0], layout[0].0), Render(values[1..], layout[1..]), layout);
      hide Padded, Pow10, Value, Render, ParseFields, AllDigits;
      ParseRendered(values[1..], layout[1..]);
      assert values == [values[0]] + values[1..];
    }
  }

  /** A stored timestamp is read only when it is exactly the text written for some datetime. */
  function ParseStamp(s: string): (t: Option<int>)
    ensures t.Some? ==> exists m :: Valid(m) && Text(m) == s && Instant(m) == t.value
  {
    match ParseFields(s, LAYOUT)
    case None => None
    case Some(v) =>
      if |v| != 7 then None
      else
        var m := Moment(v[0], v[1], v[2], v[3], v[4], v[5], v[6]);
        if Valid(m) && Text(m) == s then Some(Instant(m)) else None
  }

  lemma StampRoundTrip(t: int)
    requires Representable(t)
    ensures ParseStamp(Stamp(t)) == Some(t)
  {
    var m := MomentOf(t);
    ValidFits(m);
    ParseRendered(Values(m), LAYOUT);
  }

  /**
   The time a service gives a record: the clock's, or the floor's where that is later. Both are
   converted to UTC first, which overflows for a time outside the years 1 to 9999.
   */
  function ServiceTime(now: int, floor: Option<int>): (t: Option<int>)
    ensures t.Some? <==> Representable(now) && (floor.Some? ==> Representable(floor.value))
    ensures t.Some? ==> t.value >= now && (floor.Some? ==> t.value >= floor.value) && (t.value == now || floor == t)
  {
    if !Representable(now) || (floor.Some? && !Representable(floor.value)) then None
    else if floor.Some? then Some(Max(now, floor.value))
    else Some(now)
  }
}
