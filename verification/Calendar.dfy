/** Migration versions from timestamps: civil-from-days against a calendar that counts day by day. */
module Calendar {
  import Decimal

  datatype Date = Date(year: nat, month: nat, day: nat)

  // ----- the calendar, one day at a time -----

  predicate Leap(y: nat) { y % 4 == 0 && (y % 100 != 0 || y % 400 == 0) }

  function DaysIn(y: nat, m: nat): nat {
    if m == 2 then (if Leap(y) then 29 else 28)
    else if m == 4 || m == 6 || m == 9 || m == 11 then 30
    else 31
  }

  function NextDay(d: Date): Date {
    if d.day < DaysIn(d.year, d.month) then d.(day := d.day + 1)
    else if d.month < 12 then Date(d.year, d.month + 1, 1)
    else Date(d.year + 1, 1, 1)
  }

  const EPOCH := Date(1970, 1, 1)

  /** The date `n` days after the epoch. */
  function DateOf(n: nat): Date { if n == 0 then EPOCH else NextDay(DateOf(n - 1)) }

  // ----- the formula -----

  const ERA := 146097

  /** Year of the era, counted from March, from the day of the era. */
  function YearOfEra(doe: nat): nat { (doe - doe / 1460 + doe / 36524 - doe / 146096) / 365 }

  function YearStart(yoe: nat): int { 365 * yoe + yoe / 4 - yoe / 100 }

  /** The computation; every step stays within range. */
  function Civil(days: nat): Date {
    var z := days + 719468;
    var era := z / ERA;
    var doe := z - era * ERA;
    var yoe := YearOfEra(doe);
    YearIsRight(doe);
    var y := yoe + era * 400;
    var doy := doe - YearStart(yoe);
    var mp := (5 * doy + 2) / 153;
    MonthIsRight(doy);
    var d := doy - (153 * mp + 2) / 5 + 1;
    var m := if mp < 10 then mp + 3 else mp - 9;
    Date(if m <= 2 then y + 1 else y, m, d)
  }

  // ----- the formula is right -----

  /** The length of the year that starts in March of year `yoe` of an era. */
  function YearLength(yoe: nat): nat {
    if (yoe + 1) % 4 == 0 && ((yoe + 1) % 100 != 0 || yoe == 399) then 366 else 365
  }

  lemma DivIs(x: nat, k: nat, q: nat)
    requires k > 0 && q * k <= x < q * k + k
    ensures x / k == q
  {
    Decimal.DivideExactly(q, k, x - q * k);
  }

  /** Day `t` of year `r` of four-year cycle `q` of century `c` of an era. */
  predicate InEra(c: nat, q: nat, r: nat, t: nat) {
    c < 4 && q < 25 && r < 4 && t < 365 + (if r == 3 && (q < 24 || c == 3) then 1 else 0)
  }

  lemma StartOfParts(c: nat, q: nat, r: nat, t: nat)
    requires InEra(c, q, r, t)
    ensures var doe, y := 36524 * c + 1461 * q + 365 * r + t, 100 * c + 4 * q + r;
            YearStart(y) == doe - t && t < YearLength(y)
  {
    var y := 100 * c + 4 * q + r;
    DivIs(y, 4, 25 * c + q);
    DivIs(y, 100, c);
  }

  lemma YearOfParts(c: nat, q: nat, r: nat, t: nat)
    requires InEra(c, q, r, t)
    ensures YearOfEra(36524 * c + 1461 * q + 365 * r + t) == 100 * c + 4 * q + r
  {
    var doe, y := 36524 * c + 1461 * q + 365 * r + t, 100 * c + 4 * q + r;
    var a := 24 * c + q + 365 * r + t;
    DivIs(doe, 1460, 25 * c + q + if a >= 1460 then 1 else 0);
    DivIs(doe, 36524, c + if 1461 * q + 365 * r + t >= 36524 then 1 else 0);
    DivIs(doe, 146096, if doe >= 146096 then 1 else 0);
    DivIs(doe - doe / 1460 + doe / 36524 - doe / 146096, 365, y);
  }

  lemma Parts(doe: nat) returns (c: nat, q: nat, r: nat, t: nat)
    requires doe < ERA
    ensures InEra(c, q, r, t) && doe == 36524 * c + 1461 * q + 365 * r + t
  {
    c := if doe / 36524 < 4 then doe / 36524 else 3;
    var inCentury := doe - 36524 * c;
    q := inCentury / 1461;
    var inCycle := inCentury - 1461 * q;
    r := if inCycle / 365 < 4 then inCycle / 365 else 3;
    t := inCycle - 365 * r;
  }

  lemma YearIsRight(doe: nat)
    requires doe < ERA
    ensures var yoe := YearOfEra(doe);
            yoe < 400 && YearStart(yoe) <= doe < YearStart(yoe) + YearLength(yoe)
  {
    var c, q, r, t := Parts(doe);
    YearOfParts(c, q, r, t);
    StartOfParts(c, q, r, t);
  }

  lemma DivNext(x: nat, k: nat)
    requires k > 1
    ensures (x + 1) / k - x / k == if (x + 1) % k == 0 then 1 else 0
  {
    var q, r := x / k, x % k;
    assert x == q * k + r;
    if r + 1 < k {
      DivIs(x + 1, k, q);
    } else {
      assert x + 1 == (q + 1) * k;
      DivIs(x + 1, k, q + 1);
    }
  }

  lemma YearEnds(yoe: nat)
    requires yoe < 400
    ensures YearStart(yoe) + YearLength(yoe) == if yoe == 399 then ERA else YearStart(yoe + 1)
  {
    DivNext(yoe, 4);
    DivNext(yoe, 100);
  }

  lemma YearsIncrease(a: nat, b: nat)
    requires a < b <= 400
    ensures YearStart(a) + YearLength(a) <= if b == 400 then ERA else YearStart(b)
    decreases b - a
  {
    YearEnds(a);
    if a + 1 < b { YearsIncrease(a + 1, b); }
  }

  /** Days before month `mp`, counted from March. */
  function Before(mp: nat): nat {
    if mp == 0 then 0 else if mp == 1 then 31 else if mp == 2 then 61 else if mp == 3 then 92
    else if mp == 4 then 122 else if mp == 5 then 153 else if mp == 6 then 184 else if mp == 7 then 214
    else if mp == 8 then 245 else if mp == 9 then 275 else if mp == 10 then 306 else if mp == 11 then 337 else 367
  }

  lemma MonthIsRight(doy: int)
    requires 0 <= doy < 366
    ensures var mp := (5 * doy + 2) / 153; mp < 12 && (153 * mp + 2) / 5 == Before(mp) <= doy < Before(mp + 1)
  {
  }

  lemma MonthIs(doy: nat, mp: nat)
    requires mp < 12 && Before(mp) <= doy < Before(mp + 1) && doy < 366
    ensures (5 * doy + 2) / 153 == mp
  {
    MonthIsRight(doy);
  }

  /** Two ways of naming a day of an era are the same. */
  lemma SameYear(doe: nat, yoe: nat)
    requires doe < ERA && yoe < 400 && YearStart(yoe) <= doe < YearStart(yoe) + YearLength(yoe)
    ensures YearOfEra(doe) == yoe
  {
    YearIsRight(doe);
    var y := YearOfEra(doe);
    if y < yoe { YearsIncrease(y, yoe); }
    if yoe < y { YearsIncrease(yoe, y); }
  }

  /** Day `doy` of the year that starts in March of year `y`, in month `mp` of that year. */
  function DateIn(y: nat, mp: nat, doy: nat): Date
    requires mp < 12 && Before(mp) <= doy
  {
    if mp < 10 then Date(y, mp + 3, doy - Before(mp) + 1) else Date(y + 1, mp - 9, doy - Before(mp) + 1)
  }

  /** The next day within a year that starts in March, and across its end. */
  lemma NextIn(y: nat, mp: nat, doy: nat, length: nat)
    requires mp < 12 && Before(mp) <= doy < Before(mp + 1) && doy < length && length == if Leap(y + 1) then 366 else 365
    ensures var next := NextDay(DateIn(y, mp, doy));
            if doy + 1 == length then next == Date(y + 1, 3, 1)
            else if doy + 1 < Before(mp + 1) then next == DateIn(y, mp, doy + 1)
            else mp < 11 && next == DateIn(y, mp + 1, doy + 1)
  {
  }

  lemma LeapInEra(era: nat, yoe: nat)
    requires yoe < 400
    ensures YearLength(yoe) == if Leap(yoe + era * 400 + 1) then 366 else 365
  {
    var y := yoe + 1;
    ModAdd(y, 4, era * 100);
    ModAdd(y, 100, era * 4);
    ModAdd(y, 400, era);
    assert yoe + era * 400 + 1 == y + (era * 100) * 4 == y + (era * 4) * 100 == y + era * 400;
    LeapWhen(y, yoe + era * 400 + 1);
    LengthWhen(yoe);
  }

  lemma ModAdd(y: nat, m: nat, k: nat)
    requires m > 0
    ensures (y + k * m) % m == y % m
  {
    var q, r := y / m, y % m;
    assert (q + k) * m + r == y + k * m;
    ModIs(q + k, m, r);
  }

  lemma ModIs(q: nat, m: nat, r: nat)
    requires r < m
    ensures (q * m + r) % m == r
  {
    Decimal.DivideExactly(q, m, r);
    var x := q * m + r;
    assert x == m * (x / m) + x % m;
    assert x / m == q;
  }

  lemma LeapWhen(y: nat, z: nat)
    requires z % 4 == y % 4 && z % 100 == y % 100 && z % 400 == y % 400
    ensures Leap(z) == Leap(y)
  {
  }

  lemma LengthWhen(yoe: nat)
    requires yoe < 400
    ensures YearLength(yoe) == if Leap(yoe + 1) then 366 else 365
  {
  }

  /** Splitting a day count into era and day of the era. */
  lemma EraIs(z: nat, era: nat, doe: nat)
    requires z == era * ERA + doe && doe < ERA
    ensures z / ERA == era
  {
    DivIs(z, ERA, era);
  }

  /** Day `doy` of year `yoe` of era `era`, in month `mp`, is `days` days after the epoch. */
  predicate Names(days: nat, era: nat, yoe: nat, mp: nat, doy: nat) {
    && yoe < 400 && doy < YearLength(yoe) && mp < 12 && Before(mp) <= doy < Before(mp + 1)
    && days + 719468 == era * ERA + YearStart(yoe) + doy
  }

  lemma CivilFrom(days: nat, era: nat, doe: nat, yoe: nat, mp: nat, doy: nat)
    requires (days + 719468) / ERA == era && doe == days + 719468 - era * ERA && YearOfEra(doe) == yoe
    requires doy == doe - YearStart(yoe) && (5 * doy + 2) / 153 == mp && mp < 12
        && (153 * mp + 2) / 5 == Before(mp) <= doy
    ensures Civil(days) == DateIn(yoe + era * 400, mp, doy)
  {
    hide YearOfEra, YearStart;
  }

  lemma CivilAt(days: nat, era: nat, yoe: nat, mp: nat, doy: nat)
    requires Names(days, era, yoe, mp, doy)
    ensures Civil(days) == DateIn(yoe + era * 400, mp, doy)
  {
    YearEnds(yoe);
    if yoe < 399 { YearsIncrease(yoe, 399); }
    var doe := YearStart(yoe) + doy;
    EraIs(days + 719468, era, doe);
    SameYear(doe, yoe);
    MonthIsRight(doy);
    MonthIs(doy, mp);
    CivilFrom(days, era, doe, yoe, mp, doy);
  }

  lemma NextNames(days: nat, era: nat, yoe: nat, mp: nat, doy: nat) returns (era': nat, yoe': nat, mp': nat, doy': nat)
    requires Names(days, era, yoe, mp, doy)
    ensures Names(days + 1, era', yoe', mp', doy')
    ensures if doy + 1 == YearLength(yoe) then yoe' + era' * 400 == yoe + era * 400 + 1 && mp' == doy' == 0
            else yoe' == yoe && era' == era && doy' == doy + 1 && mp' == if doy + 1 < Before(mp + 1) then mp else mp + 1
  {
    YearEnds(yoe);
    if doy + 1 < YearLength(yoe) {
      era', yoe', doy' := era, yoe, doy + 1;
      mp' := if doy + 1 < Before(mp + 1) then mp else mp + 1;
    } else if yoe < 399 {
      era', yoe', mp', doy' := era, yoe + 1, 0, 0;
    } else {
      era', yoe', mp', doy' := era + 1, 0, 0, 0;
    }
  }

  lemma EpochNames()
    ensures Names(0, 4, 369, 10, 306) && DateIn(369 + 4 * 400, 10, 306) == EPOCH
  {
  }

  lemma CountOneMore(days: nat, e: nat, y: nat, m: nat, d: nat) returns (era: nat, yoe: nat, mp: nat, doy: nat)
    requires Names(days, e, y, m, d)
    ensures Names(days + 1, era, yoe, mp, doy)
    ensures DateIn(yoe + era * 400, mp, doy) == NextDay(DateIn(y + e * 400, m, d))
  {
    era, yoe, mp, doy := NextNames(days, e, y, m, d);
    LeapInEra(e, y);
    NamesNext(y + e * 400, m, d, YearLength(y), yoe + era * 400, mp, doy);
  }

  /** Counting day by day, every date is the one its era, year, month and day name. */
  lemma {:induction false} CountedNames(days: nat) returns (era: nat, yoe: nat, mp: nat, doy: nat)
    ensures Names(days, era, yoe, mp, doy)
    ensures DateOf(days) == DateIn(yoe + era * 400, mp, doy)
  {
    if days == 0 {
      EpochNames();
      era, yoe, mp, doy := 4, 369, 10, 306;
    } else {
      var e, y, m, d := CountedNames(days - 1);
      era, yoe, mp, doy := CountOneMore(days - 1, e, y, m, d);
    }
  }

  /** The names of the next day name the next date. */
  lemma NamesNext(y: nat, mp: nat, doy: nat, length: nat, y': nat, mp': nat, doy': nat)
    requires mp < 12 && Before(mp) <= doy < Before(mp + 1) && doy < length && length == if Leap(y + 1) then 366 else 365
    requires if doy + 1 == length then y' == y + 1 && mp' == doy' == 0
             else y' == y && doy' == doy + 1 && mp' == if doy + 1 < Before(mp + 1) then mp else mp + 1
    ensures mp' < 12 && Before(mp') <= doy' && DateIn(y', mp', doy') == NextDay(DateIn(y, mp, doy))
  {
    NextIn(y, mp, doy, length);
  }

  /** Main result: the formula gives the date of the calendar, for every day from the epoch on. */
  lemma CivilIsCalendar(days: nat)
    ensures Civil(days) == DateOf(days)
  {
    var era, yoe, mp, doy := CountedNames(days);
    CivilAt(days, era, yoe, mp, doy);
  }

  // ----- versions -----

  predicate Valid(d: Date) { 1 <= d.month <= 12 && 1 <= d.day <= DaysIn(d.year, d.month) }

  lemma {:induction false} DatesValid(n: nat)
    ensures Valid(DateOf(n))
  {
    if n > 0 { DatesValid(n - 1); }
  }

  function Key(d: Date): nat { 10000 * d.year + 100 * d.month + d.day }

  lemma {:induction false} KeysIncrease(a: nat, b: nat)
    requires a < b
    ensures Key(DateOf(a)) < Key(DateOf(b)) && DateOf(a).year <= DateOf(b).year
    decreases b
  {
    DatesValid(b - 1);
    if a < b - 1 { KeysIncrease(a, b - 1); }
  }

  const DAY := 86400

  function Clock(tod: nat): nat { 10000 * (tod / 3600) + 100 * (tod % 3600 / 60) + tod % 60 }

  lemma ClockParts(tod: nat) returns (h: nat, m: nat, s: nat)
    requires tod < DAY
    ensures h < 24 && m < 60 && s < 60 && tod == 3600 * h + 60 * m + s && Clock(tod) == 10000 * h + 100 * m + s
  {
    h, m, s := tod / 3600, tod % 3600 / 60, tod % 60;
    assert tod % 3600 % 60 == tod % 60 by { DivIs(tod, 60, 60 * h + m); }
  }

  lemma PartsIncrease(h: nat, m: nat, s: nat, h': nat, m': nat, s': nat)
    requires m < 60 && s < 60 && m' < 60 && s' < 60 && 3600 * h + 60 * m + s < 3600 * h' + 60 * m' + s'
    ensures 10000 * h + 100 * m + s < 10000 * h' + 100 * m' + s'
  {
    assert h <= h';
    if h == h' { assert m <= m'; }
  }

  lemma ClockIncreases(a: nat, b: nat)
    requires a < b < DAY
    ensures Clock(a) < Clock(b)
  {
    var h, m, s := ClockParts(a);
    var h', m', s' := ClockParts(b);
    PartsIncrease(h, m, s, h', m', s');
  }

  /** `format_yyyymmddhhmmss`. */
  function Format(secs: nat): (s: string)
    ensures Decimal.AllDigits(s)
  {
    var d, tod := Civil(secs / DAY), secs % DAY;
    Decimal.ZeroPadded(d.year, 4) + Decimal.ZeroPadded(d.month, 2) + Decimal.ZeroPadded(d.day, 2)
    + Decimal.ZeroPadded(tod / 3600, 2) + Decimal.ZeroPadded(tod % 3600 / 60, 2) + Decimal.ZeroPadded(tod % 60, 2)
  }

  lemma TwoDigits(a: string, n: nat)
    requires Decimal.AllDigits(a) && n < 100
    ensures Decimal.AllDigits(a + Decimal.ZeroPadded(n, 2))
    ensures |Decimal.ZeroPadded(n, 2)| == 2 && Decimal.Value(a + Decimal.ZeroPadded(n, 2)) == 100 * Decimal.Value(a) + n
  {
    hide Decimal.Value;
    assert Decimal.Pow10(2) == 100;
    Decimal.ValueOfPadded(n, 2);
    Decimal.ValueAppend(a, Decimal.ZeroPadded(n, 2));
  }

  lemma FourDigits(n: nat)
    requires n < 10000
    ensures |Decimal.ZeroPadded(n, 4)| == 4 && Decimal.Value(Decimal.ZeroPadded(n, 4)) == n
  {
    assert Decimal.Pow10(2) == 100 && Decimal.Pow10(4) == 10000;
    Decimal.ValueOfPadded(n, 4);
  }

  /** Up to year 9999 the version has 14 digits: those of the calendar date and of the time of day. */
  lemma VersionValue(secs: nat)
    requires DateOf(secs / DAY).year <= 9999
    ensures |Format(secs)| == 14 && Decimal.Value(Format(secs)) == 1000000 * Key(DateOf(secs / DAY)) + Clock(secs % DAY)
  {
    CivilIsCalendar(secs / DAY);
    DatesValid(secs / DAY);
    var d, tod := DateOf(secs / DAY), secs % DAY;
    var s0 := Decimal.ZeroPadded(d.year, 4);
    FourDigits(d.year);
    TwoDigits(s0, d.month);
    var s1 := s0 + Decimal.ZeroPadded(d.month, 2);
    TwoDigits(s1, d.day);
    var s2 := s1 + Decimal.ZeroPadded(d.day, 2);
    TwoDigits(s2, tod / 3600);
    var s3 := s2 + Decimal.ZeroPadded(tod / 3600, 2);
    TwoDigits(s3, tod % 3600 / 60);
    TwoDigits(s3 + Decimal.ZeroPadded(tod % 3600 / 60, 2), tod % 60);
  }

  /** Main result: a later second has a strictly larger 14-digit version, so sorting versions sorts by creation time. */
  lemma LaterIsLarger(a: nat, b: nat)
    requires a < b && DateOf(b / DAY).year <= 9999
    ensures |Format(a)| == |Format(b)| == 14 && Decimal.Value(Format(a)) < Decimal.Value(Format(b))
  {
    if a / DAY < b / DAY {
      KeysIncrease(a / DAY, b / DAY);
    } else {
      assert a / DAY == b / DAY;
      ClockIncreases(a % DAY, b % DAY);
    }
    ClockBound(a % DAY);
    VersionValue(a);
    VersionValue(b);
  }

  lemma ClockBound(tod: nat)
    requires tod < DAY
    ensures Clock(tod) < 1000000
  {
    var h, m, s := ClockParts(tod);
  }
}
