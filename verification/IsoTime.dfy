/**
 The spend ledger stores instants as the text of `datetime.isoformat()` in UTC and lets SQLite compare them as
 text. `isoformat` leaves out the fraction when the microseconds are zero, so texts differ in length; the
 order still agrees because '+' sorts before '.'. Section 5.1 of RFC 3339 promises this order only for equal
 fraction digits.
 */
module IsoTime {
  import opened Arith
  import opened Decimal
  import opened Window
  import opened Wrappers

  datatype DateTime = DateTime(
    year: nat, month: nat, day: nat, hour: nat, minute: nat, second: nat, micro: nat)

  predicate Leap(y: nat) {
    y % 4 == 0 && (y % 100 != 0 || y % 400 == 0)
  }

  function DaysInMonth(y: nat, m: nat): nat {
    if m == 2 then (if Leap(y) then 29 else 28) else if m in {4, 6, 9, 11} then 30 else 31
  }

  /** `datetime`'s own range. */
  predicate Valid(t: DateTime) {
    && 1 <= t.year <= 9999 && 1 <= t.month <= 12 && 1 <= t.day <= DaysInMonth(t.year, t.month)
    && t.hour < 24 && t.minute < 60 && t.second < 60 && t.micro < 1_000_000
  }

  // --- chronological position ---

  function DaysBeforeMonth(y: nat, m: nat): nat {
    if m <= 1 then 0 else DaysBeforeMonth(y, m - 1) + DaysInMonth(y, m - 1)
  }

  function YearLength(y: nat): nat {
    if Leap(y) then 366 else 365
  }

  function DaysBeforeYear(y: nat): nat {
    if y <= 1 then 0 else DaysBeforeYear(y - 1) + YearLength(y - 1)
  }

  lemma NextQuotient(n: nat, d: nat)
    requires d > 1
    ensures (n + 1) / d == n / d + if (n + 1) % d == 0 then 1 else 0
  {
    var q, r := n / d, n % d;
    assert n == q * d + r;
    if r == d - 1 {
      assert n + 1 == (q + 1) * d;
      QuotientIs(n + 1, d, q + 1, 0);
    } else {
      QuotientIs(n + 1, d, q, r + 1);
    }
  }

  lemma LeapIs(y: nat)
    ensures y % 400 == 0 ==> y % 100 == 0
    ensures y % 100 == 0 ==> y % 4 == 0
  {
    if y % 400 == 0 { assert y == 100 * (4 * (y / 400)); }
    if y % 100 == 0 { assert y == 4 * (25 * (y / 100)); }
  }

  /** The calendar's closed form: a leap day every 4 years, but not every 100, but every 400. */
  lemma {:induction false} DaysBeforeYearIs(y: nat)
    requires y > 0
    ensures DaysBeforeYear(y) == 365 * (y - 1) + (y - 1) / 4 - (y - 1) / 100 + (y - 1) / 400
  {
    if y > 1 {
      DaysBeforeYearIs(y - 1);
      NextQuotient(y - 2, 4);
      NextQuotient(y - 2, 100);
      NextQuotient(y - 2, 400);
      LeapIs(y - 1);
    }
  }

  /** The same for the months: a leap day from March on. */
  lemma DaysBeforeMonthIs(y: nat, m: nat)
    requires 1 <= m <= 12
    ensures DaysBeforeMonth(y, m)
         == [0, 31, 59, 90, 120, 151, 181, 212, 243, 273, 304, 334][m - 1] + if Leap(y) && m > 2 then 1 else 0
  {
    var days := k => DaysBeforeMonth(y, k);
    assert days(1) == 0 && days(2) == 31;
    assert days(3) == days(2) + DaysInMonth(y, 2) && days(4) == days(3) + 31 && days(5) == days(4) + 30;
    assert days(6) == days(5) + 31 && days(7) == days(6) + 30 && days(8) == days(7) + 31 && days(9) == days(8) + 31;
    assert days(10) == days(9) + 30 && days(11) == days(10) + 31 && days(12) == days(11) + 30;
  }

  function Day(t: DateTime): nat {
    DaysBeforeYear(t.year) + DaysBeforeMonth(t.year, t.month) + t.day
  }

  /** Microseconds since the day before 1 January of year 1. */
  function Micros(t: DateTime): nat {
    (((Day(t) * 24 + t.hour) * 60 + t.minute) * 60 + t.second) * 1_000_000 + t.micro
  }

  /** The same time on the next day is one window's length later. */
  lemma NextDayIsDayLater(a: DateTime, b: DateTime)
    requires Day(b) == Day(a) + 1
      && a.hour == b.hour && a.minute == b.minute && a.second == b.second && a.micro == b.micro
    ensures Micros(b) == Micros(a) + DAY
  {
  }

  // --- the text ---

  datatype Field = Field(value: nat, width: nat, separator: string)

  function Fields(t: DateTime): seq<Field> {
    [Field(t.year, 4, "-"), Field(t.month, 2, "-"), Field(t.day, 2, "T"),
     Field(t.hour, 2, ":"), Field(t.minute, 2, ":"), Field(t.second, 2, "")]
  }

  function Render(fs: seq<Field>, tail: string): string {
    if fs == [] then tail else Pad(fs[0].value, fs[0].width) + (fs[0].separator + Render(fs[1..], tail))
  }

  function Fraction(micro: nat): string {
    (if micro == 0 then "" else "." + Pad(micro, 6)) + "+00:00"
  }

  function IsoFormat(t: DateTime): string {
    Render(Fields(t), Fraction(t.micro))
  }

  lemma RenderOne(fs: seq<Field>, tail: string, i: nat)
    requires i < |fs|
    ensures Render(fs[i..], tail)
         == Pad(fs[i].value, fs[i].width) + (fs[i].separator + Render(fs[i + 1..], tail))
  {
    assert fs[i..][0] == fs[i] && fs[i..][1..] == fs[i + 1..];
  }

  /** The date, 'T', the time, the fraction only if there is one, and the UTC offset. */
  lemma IsoFormatIs(t: DateTime)
    ensures IsoFormat(t) == Pad(t.year, 4) + ("-" + (Pad(t.month, 2) + ("-" + (Pad(t.day, 2) + ("T" + Time(t))))))
  {
    RenderOne(Fields(t), Fraction(t.micro), 0);
    RenderOne(Fields(t), Fraction(t.micro), 1);
    RenderOne(Fields(t), Fraction(t.micro), 2);
    assert Fields(t)[0..] == Fields(t);
  }

  lemma TimeIs(t: DateTime)
    ensures Time(t) ==
            Pad(t.hour, 2) + (":" + (Pad(t.minute, 2) + (":" + (Pad(t.second, 2) + ("" + Fraction(t.micro))))))
    ensures t.micro == 0 ==> Fraction(t.micro) == "+00:00"
    ensures t.micro > 0 ==> Fraction(t.micro) == "." + Pad(t.micro, 6) + "+00:00"
  {
    RenderOne(Fields(t), Fraction(t.micro), 3);
    RenderOne(Fields(t), Fraction(t.micro), 4);
    RenderOne(Fields(t), Fraction(t.micro), 5);
    assert Fields(t)[6..] == [];
  }

  function Time(t: DateTime): string {
    Render(Fields(t)[3..], Fraction(t.micro))
  }

  /** SQLite's BINARY collation on ASCII text. */
  predicate TextLess(a: string, b: string) {
    b != [] && (a == [] || a[0] < b[0] || (a[0] == b[0] && TextLess(a[1..], b[1..])))
  }

  // --- text order of fixed-width fields ---

  lemma {:induction false} CommonPrefix(p: string, a: string, b: string)
    ensures TextLess(p + a, p + b) <==> TextLess(a, b)
    decreases |p|
  {
    if p == [] {
      assert p + a == a && p + b == b;
    } else {
      assert (p + a)[1..] == p[1..] + a && (p + b)[1..] == p[1..] + b;
      CommonPrefix(p[1..], a, b);
    }
  }

  lemma {:induction false} DecidedByPrefix(p: string, q: string, a: string, b: string)
    requires |p| == |q| && p != q
    ensures TextLess(p + a, q + b) <==> TextLess(p, q)
    decreases |p|
  {
    assert (p + a)[1..] == p[1..] + a && (q + b)[1..] == q[1..] + b;
    if p[0] == q[0] {
      assert p == [p[0]] + p[1..] && q == [q[0]] + q[1..];
      DecidedByPrefix(p[1..], q[1..], a, b);
    }
  }

  lemma {:induction false} PadOrder(m: nat, n: nat, width: nat)
    requires m < Pow10(width) && n < Pow10(width)
    ensures TextLess(Pad(m, width), Pad(n, width)) <==> m < n
    ensures Pad(m, width) == Pad(n, width) <==> m == n
  {
    ReadPad(m, width);
    ReadPad(n, width);
    if width > 0 {
      PadOrder(m / 10, n / 10, width - 1);
      var p, q := Pad(m / 10, width - 1), Pad(n / 10, width - 1);
      var c, d := [DigitChar(m % 10)], [DigitChar(n % 10)];
      if p == q { CommonPrefix(p, c, d); } else { DecidedByPrefix(p, q, c, d); }
    }
  }

  /** Same widths and separators, every value within its width. */
  predicate SameShape(fs: seq<Field>, gs: seq<Field>) {
    && |fs| == |gs|
    && forall i | 0 <= i < |fs| ::
         && fs[i].width == gs[i].width && fs[i].separator == gs[i].separator
         && fs[i].value < Pow10(fs[i].width) && gs[i].value < Pow10(gs[i].width)
  }

  predicate FieldsLess(fs: seq<Field>, gs: seq<Field>)
    requires |fs| == |gs|
  {
    fs != [] && (fs[0].value < gs[0].value || (fs[0].value == gs[0].value && FieldsLess(fs[1..], gs[1..])))
  }

  lemma FirstDecides(f: Field, g: Field, a: string, b: string)
    requires f.width == g.width && f.separator == g.separator
    requires f.value < Pow10(f.width) && g.value < Pow10(g.width)
    ensures TextLess(Pad(f.value, f.width) + (f.separator + a), Pad(g.value, g.width) + (g.separator + b))
       <==> f.value < g.value || (f.value == g.value && TextLess(a, b))
  {
    var p, q := Pad(f.value, f.width), Pad(g.value, g.width);
    PadOrder(f.value, g.value, f.width);
    if p == q {
      CommonPrefix(p, f.separator + a, f.separator + b);
      CommonPrefix(f.separator, a, b);
    } else {
      DecidedByPrefix(p, q, f.separator + a, g.separator + b);
    }
  }

  lemma {:induction false} RenderOrder(fs: seq<Field>, gs: seq<Field>, s: string, t: string)
    requires SameShape(fs, gs)
    ensures TextLess(Render(fs, s), Render(gs, t)) <==> FieldsLess(fs, gs) || (fs == gs && TextLess(s, t))
    decreases |fs|
  {
    if fs != [] {
      FirstDecides(fs[0], gs[0], Render(fs[1..], s), Render(gs[1..], t));
      assert SameShape(fs[1..], gs[1..]);
      RenderOrder(fs[1..], gs[1..], s, t);
      assert fs == [fs[0]] + fs[1..] && gs == [gs[0]] + gs[1..];
    }
  }

  /** An absent fraction sorts before every present one, as zero should. */
  lemma FractionOrder(m: nat, n: nat)
    requires m < 1_000_000 && n < 1_000_000
    ensures TextLess(Fraction(m), Fraction(n)) <==> m < n
  {
    var zone := "+00:00";
    if m > 0 && n > 0 {
      PadOrder(m, n, 6);
      assert Fraction(m) == "." + (Pad(m, 6) + zone) && Fraction(n) == "." + (Pad(n, 6) + zone);
      CommonPrefix(".", Pad(m, 6) + zone, Pad(n, 6) + zone);
      if m == n { Irreflexive(Pad(m, 6) + zone); } else { DecidedByPrefix(Pad(m, 6), Pad(n, 6), zone, zone); }
    } else if m == n {
      Irreflexive(Fraction(m));
    } else {
      assert Fraction(m)[0] == if m == 0 then '+' else '.';
      assert Fraction(n)[0] == if n == 0 then '+' else '.';
    }
  }

  lemma {:induction false} Irreflexive(s: string)
    ensures !TextLess(s, s)
  {
    if s != [] { Irreflexive(s[1..]); }
  }

  // --- chronological order of fields ---

  lemma {:induction false} MonthsGrow(y: nat, m: nat, n: nat)
    requires 1 <= m < n <= 13
    ensures DaysBeforeMonth(y, m) + DaysInMonth(y, m) <= DaysBeforeMonth(y, n)
    decreases n
  {
    if m < n - 1 { MonthsGrow(y, m, n - 1); }
  }

  lemma MonthsFillTheYear(y: nat)
    ensures DaysBeforeMonth(y, 13) == YearLength(y)
  {
    var leap := if Leap(y) then 1 else 0;
    assert DaysBeforeMonth(y, 1) == 0;
    assert DaysBeforeMonth(y, 2) == 31;
    assert DaysBeforeMonth(y, 3) == 59 + leap;
    assert DaysBeforeMonth(y, 4) == 90 + leap;
    assert DaysBeforeMonth(y, 5) == 120 + leap;
    assert DaysBeforeMonth(y, 6) == 151 + leap;
    assert DaysBeforeMonth(y, 7) == 181 + leap;
    assert DaysBeforeMonth(y, 8) == 212 + leap;
    assert DaysBeforeMonth(y, 9) == 243 + leap;
    assert DaysBeforeMonth(y, 10) == 273 + leap;
    assert DaysBeforeMonth(y, 11) == 304 + leap;
    assert DaysBeforeMonth(y, 12) == 334 + leap;
  }

  lemma {:induction false} YearsGrow(y: nat, z: nat)
    requires 1 <= y < z
    ensures DaysBeforeYear(y) + YearLength(y) <= DaysBeforeYear(z)
    decreases z
  {
    if y < z - 1 { YearsGrow(y, z - 1); }
  }

  lemma DayInYear(t: DateTime)
    requires Valid(t)
    ensures DaysBeforeMonth(t.year, t.month) + t.day <= YearLength(t.year)
  {
    MonthsGrow(t.year, t.month, 13);
    MonthsFillTheYear(t.year);
  }

  predicate DateLess(a: DateTime, b: DateTime) {
    a.year < b.year || (a.year == b.year && (a.month < b.month || (a.month == b.month && a.day < b.day)))
  }

  lemma EarlierDate(a: DateTime, b: DateTime)
    requires Valid(a) && Valid(b) && DateLess(a, b)
    ensures Day(a) < Day(b)
  {
    if a.year < b.year {
      DayInYear(a);
      YearsGrow(a.year, b.year);
    } else if a.month < b.month {
      MonthsGrow(a.year, a.month, b.month);
    }
  }

  lemma DayOrder(a: DateTime, b: DateTime)
    requires Valid(a) && Valid(b)
    ensures Day(a) < Day(b) <==> DateLess(a, b)
    ensures Day(a) == Day(b) <==> SameDate(a, b)
  {
    if DateLess(a, b) { EarlierDate(a, b); }
    if DateLess(b, a) { EarlierDate(b, a); }
  }

  lemma Horner(p: int, q: int, base: int, x: int, y: int)
    requires 0 <= x < base && 0 <= y < base
    ensures p * base + x < q * base + y <==> p < q || (p == q && x < y)
    ensures p * base + x == q * base + y <==> p == q && x == y
  {
    if p < q { assert (p + 1) * base <= q * base; }
    if q < p { assert (q + 1) * base <= p * base; }
  }

  function Seconds(t: DateTime): nat {
    ((Day(t) * 24 + t.hour) * 60 + t.minute) * 60 + t.second
  }

  lemma SecondsOrder(a: DateTime, b: DateTime)
    requires Valid(a) && Valid(b)
    ensures Seconds(a) < Seconds(b) <==> FieldsLess(Fields(a), Fields(b))
    ensures Seconds(a) == Seconds(b) <==> Fields(a) == Fields(b)
  {
    DayOrder(a, b);
    Horner(Day(a), Day(b), 24, a.hour, b.hour);
    Horner(Day(a) * 24 + a.hour, Day(b) * 24 + b.hour, 60, a.minute, b.minute);
    Horner((Day(a) * 24 + a.hour) * 60 + a.minute, (Day(b) * 24 + b.hour) * 60 + b.minute, 60, a.second, b.second);
    DateFieldsLess(a, b);
    TimeFieldsLess(a, b);
    FieldsEqual(a, b);
  }

  lemma LessFrom(f: seq<Field>, g: seq<Field>, i: nat)
    requires |f| == |g| && i < |f|
    ensures FieldsLess(f[i..], g[i..]) <==>
              f[i].value < g[i].value || (f[i].value == g[i].value && FieldsLess(f[i + 1..], g[i + 1..]))
  {
    assert f[i..][1..] == f[i + 1..] && g[i..][1..] == g[i + 1..];
  }

  predicate SameDate(a: DateTime, b: DateTime) {
    a.year == b.year && a.month == b.month && a.day == b.day
  }

  predicate TimeLess(a: DateTime, b: DateTime) {
    a.hour < b.hour || (a.hour == b.hour && (a.minute < b.minute || (a.minute == b.minute && a.second < b.second)))
  }

  lemma DateFieldsLess(a: DateTime, b: DateTime)
    ensures FieldsLess(Fields(a), Fields(b)) <==>
              DateLess(a, b) || (SameDate(a, b) && FieldsLess(Fields(a)[3..], Fields(b)[3..]))
  {
    var f, g := Fields(a), Fields(b);
    LessFrom(f, g, 2);
    LessFrom(f, g, 1);
    LessFrom(f, g, 0);
    assert f[0..] == f && g[0..] == g;
  }

  lemma TimeFieldsLess(a: DateTime, b: DateTime)
    ensures FieldsLess(Fields(a)[3..], Fields(b)[3..]) <==> TimeLess(a, b)
  {
    var f, g := Fields(a), Fields(b);
    assert FieldsLess(f[6..], g[6..]) == false;
    LessFrom(f, g, 5);
    LessFrom(f, g, 4);
    LessFrom(f, g, 3);
  }

  lemma FieldsEqual(a: DateTime, b: DateTime)
    ensures Fields(a) == Fields(b) <==>
              SameDate(a, b) && a.hour == b.hour && a.minute == b.minute && a.second == b.second
  {
    var f, g := Fields(a), Fields(b);
    assert f == g ==> f[0] == g[0] && f[1] == g[1] && f[2] == g[2] && f[3] == g[3] && f[4] == g[4] && f[5] == g[5];
  }

  lemma TextOrderOf(fs: seq<Field>, gs: seq<Field>, m: nat, n: nat)
    requires SameShape(fs, gs) && m < 1_000_000 && n < 1_000_000
    ensures TextLess(Render(fs, Fraction(m)), Render(gs, Fraction(n))) <==> FieldsLess(fs, gs) || (fs == gs && m < n)
  {
    RenderOrder(fs, gs, Fraction(m), Fraction(n));
    FractionOrder(m, n);
  }

  lemma FieldsFit(a: DateTime, b: DateTime)
    requires Valid(a) && Valid(b)
    ensures SameShape(Fields(a), Fields(b))
  {
    assert Pow10(2) == 100 && Pow10(4) == 10_000;
  }

  lemma TextOrder(a: DateTime, b: DateTime)
    requires Valid(a) && Valid(b)
    ensures TextLess(IsoFormat(a), IsoFormat(b)) <==>
              FieldsLess(Fields(a), Fields(b)) || (Fields(a) == Fields(b) && a.micro < b.micro)
  {
    FieldsFit(a, b);
    TextOrderOf(Fields(a), Fields(b), a.micro, b.micro);
  }

  lemma MicrosOrder(a: DateTime, b: DateTime)
    requires Valid(a) && Valid(b)
    ensures Micros(a) < Micros(b) <==> FieldsLess(Fields(a), Fields(b)) || (Fields(a) == Fields(b) && a.micro < b.micro)
  {
    SecondsOrder(a, b);
    Horner(Seconds(a), Seconds(b), 1_000_000, a.micro, b.micro);
  }

  /** The ledger's text comparison is the chronological one, for all UTC instants. */
  lemma TextOrderIsChronological(a: DateTime, b: DateTime)
    requires Valid(a) && Valid(b)
    ensures TextLess(IsoFormat(a), IsoFormat(b)) <==> Micros(a) < Micros(b)
  {
    TextOrder(a, b);
    MicrosOrder(a, b);
  }

  // --- reading it back ---

  const EPOCH := DateTime(1970, 1, 1, 0, 0, 0, 0)

  /** Read fields of the widths and separators of `like`, in order; the fields read and the rest of the text. */
  function ReadFields(s: string, like: seq<Field>): Option<(seq<Field>, string)> {
    if like == [] then Some(([], s))
    else
      var w, n := like[0].width, like[0].width + |like[0].separator|;
      if |s| < n || !AllDigits(s[..w]) || s[w..n] != like[0].separator then None
      else match ReadFields(s[n..], like[1..])
           case Some((fs, rest)) => Some(([Field(Read(s[..w]), w, like[0].separator)] + fs, rest))
           case None => None
  }

  function ReadFraction(s: string): Option<nat> {
    if s == "+00:00" then Some(0)
    else if |s| == 13 && s[0] == '.' && AllDigits(s[1..7]) && s[7..] == "+00:00" then Some(Read(s[1..7]))
    else None
  }

  /** `datetime.fromisoformat` on the shapes `isoformat` writes in UTC; none for any other text. */
  function FromText(s: string): Option<DateTime> {
    match ReadFields(s, Fields(EPOCH))
    case Some((f, rest)) =>
      if |f| == 6 && ReadFraction(rest).Some? then
        Some(DateTime(f[0].value, f[1].value, f[2].value, f[3].value, f[4].value, f[5].value, ReadFraction(rest).value))
      else None
    case None => None
  }

  lemma ReadOne(f: Field, rest: string, like: seq<Field>)
    requires like != [] && f.width == like[0].width && f.separator == like[0].separator && f.value < Pow10(f.width)
    ensures ReadFields(Pad(f.value, f.width) + (f.separator + rest), like)
         == match ReadFields(rest, like[1..])
            case Some((fs, r)) => Some(([f] + fs, r))
            case None => None
  {
    var p := Pad(f.value, f.width);
    var s := p + (f.separator + rest);
    assert s[..|p|] == p && s[|p|..|p| + |f.separator|] == f.separator && s[|p| + |f.separator|..] == rest;
    ReadPad(f.value, f.width);
  }

  lemma {:induction false} ReadRendered(fs: seq<Field>, like: seq<Field>, tail: string)
    requires SameShape(fs, like)
    ensures ReadFields(Render(fs, tail), like) == Some((fs, tail))
    decreases |fs|
  {
    if fs != [] {
      assert SameShape(fs[1..], like[1..]);
      ReadRendered(fs[1..], like[1..], tail);
      ReadOne(fs[0], Render(fs[1..], tail), like);
      assert fs == [fs[0]] + fs[1..];
    }
  }

  lemma FractionRead(micro: nat)
    requires micro < 1_000_000
    ensures ReadFraction(Fraction(micro)) == Some(micro)
  {
    if micro > 0 {
      var s := Fraction(micro);
      assert s[1..7] == Pad(micro, 6) && s[7..] == "+00:00";
      assert Pow10(6) == 1_000_000;
      ReadPad(micro, 6);
    }
  }

  /** Writing an instant and reading it back gives the same instant. */
  lemma FromIsoFormat(t: DateTime)
    requires Valid(t)
    ensures FromText(IsoFormat(t)) == Some(t)
  {
    FieldsFit(t, EPOCH);
    ReadRendered(Fields(t), Fields(EPOCH), Fraction(t.micro));
    FractionRead(t.micro);
  }

  // --- the ledger's queries over text ---

  datatype Stored = Stored(at: DateTime, amount: real)

  function AsCharge(r: Stored): Charge {
    Charge(Micros(r.at), r.amount)
  }

  function AsCharges(rows: seq<Stored>): seq<Charge> {
    seq(|rows|, i requires 0 <= i < |rows| => AsCharge(rows[i]))
  }

  /** `SUM(amount) WHERE spent_at > cutoff`, both sides text. */
  function TextTotal(rows: seq<Stored>, cutoff: string): real {
    if rows == [] then 0.0
    else TextTotal(rows[..|rows| - 1], cutoff)
         + if TextLess(cutoff, IsoFormat(rows[|rows| - 1].at)) then rows[|rows| - 1].amount else 0.0
  }

  lemma AsChargesSnoc(rows: seq<Stored>)
    requires rows != []
    ensures AsCharges(rows) == AsCharges(rows[..|rows| - 1]) + [AsCharge(rows[|rows| - 1])]
  {
  }

  /** The window query over text refines the window over instants. */
  lemma {:induction false} TextWindowIsWindow(rows: seq<Stored>, now: DateTime, cutoff: DateTime)
    requires Valid(cutoff) && Micros(cutoff) == Micros(now) - DAY
    requires forall r | r in rows :: Valid(r.at)
    ensures TextTotal(rows, IsoFormat(cutoff)) == Total(AsCharges(rows), Micros(now) - DAY)
    decreases |rows|
  {
    if rows != [] {
      var front, last := rows[..|rows| - 1], rows[|rows| - 1];
      TextWindowIsWindow(front, now, cutoff);
      assert last in rows;
      TextOrderIsChronological(cutoff, last.at);
      AsChargesSnoc(rows);
      TotalSnoc(AsCharges(front), AsCharge(last), Micros(now) - DAY);
      assert Part(AsCharge(last), Micros(now) - DAY)
          == if TextLess(IsoFormat(cutoff), IsoFormat(last.at)) then last.amount else 0.0;
    }
  }

  predicate TextSorted(rows: seq<Stored>) {
    forall i, j | 0 <= i < j < |rows| :: !TextLess(IsoFormat(rows[j].at), IsoFormat(rows[i].at))
  }

  /** `ORDER BY spent_at ASC` over text is chronological order. */
  lemma TextSortedIsChronological(rows: seq<Stored>)
    requires forall r | r in rows :: Valid(r.at)
    ensures TextSorted(rows) <==> Chronological(AsCharges(rows))
  {
    var charges := AsCharges(rows);
    forall i, j | 0 <= i < j < |rows|
      ensures !TextLess(IsoFormat(rows[j].at), IsoFormat(rows[i].at)) <==> charges[i].at <= charges[j].at
    {
      assert rows[i] in rows && rows[j] in rows;
      TextOrderIsChronological(rows[j].at, rows[i].at);
    }
  }
}
