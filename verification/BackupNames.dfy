/** Backup names: the time stamp is written with fixed width, so names sort as time does. */
module BackupNames {

  // ---------- Text order ----------

  /** The order of texts by character code, a proper prefix first. */
  predicate Less(a: string, b: string) {
    b != [] && (a == [] || a[0] < b[0] || (a[0] == b[0] && Less(a[1..], b[1..])))
  }

  lemma {:induction false} LessTotal(a: string, b: string)
    ensures !Less(a, a)
    ensures a == b || Less(a, b) || Less(b, a)
    ensures !(Less(a, b) && Less(b, a))
  {
    if a != [] {
      LessTotal(a[1..], if b == [] then [] else b[1..]);
      if b != [] && a[0] == b[0] {
        assert a[1..] == b[1..] ==> a == [a[0]] + a[1..] == b;
      }
    }
  }

  lemma {:induction false} LessTransitive(a: string, b: string, c: string)
    requires Less(a, b) && Less(b, c)
    ensures Less(a, c)
  {
    if a != [] && a[0] == b[0] == c[0] {
      LessTransitive(a[1..], b[1..], c[1..]);
    }
  }

  lemma {:induction false} LessAfterPrefix(p: string, a: string, b: string)
    ensures Less(p + a, p + b) <==> Less(a, b)
  {
    if p == [] {
      assert p + a == a && p + b == b;
    } else {
      assert (p + a)[1..] == p[1..] + a && (p + b)[1..] == p[1..] + b;
      LessAfterPrefix(p[1..], a, b);
    }
  }

  // ---------- Fixed-width numbers ----------

  function Pow10(w: nat): nat { if w == 0 then 1 else 10 * Pow10(w - 1) }

  /** The number in exactly `w` decimal digits. */
  function Fixed(n: nat, w: nat): (s: string)
    ensures |s| == w
  {
    if w == 0 then [] else Fixed(n / 10, w - 1) + [('0' as int + n % 10) as char]
  }

  /** Of two numbers in the same width the smaller comes first, whatever follows; equal ones leave
      it to what follows. */
  lemma {:induction false} FixedOrder(m: nat, n: nat, w: nat, x: string, y: string)
    requires m < Pow10(w) && n < Pow10(w)
    ensures m < n ==> Less(Fixed(m, w) + x, Fixed(n, w) + y)
    ensures m == n ==> (Less(Fixed(m, w) + x, Fixed(n, w) + y) <==> Less(x, y))
  {
    if m == n {
      LessAfterPrefix(Fixed(m, w), x, y);
    } else if w > 0 {
      var c, d := [('0' as int + m % 10) as char], [('0' as int + n % 10) as char];
      FixedOrder(m / 10, n / 10, w - 1, c + x, d + y);
      assert Fixed(m, w) + x == Fixed(m / 10, w - 1) + (c + x);
      assert Fixed(n, w) + y == Fixed(n / 10, w - 1) + (d + y);
    }
  }

  // ---------- Time ----------

  /** A UTC time to the second. */
  datatype Timestamp = Timestamp(year: nat, month: nat, day: nat, hour: nat, minute: nat, second: nat)

  predicate Leap(y: nat) { y % 4 == 0 && (y % 100 != 0 || y % 400 == 0) }

  function MonthLength(y: nat, m: nat): nat {
    if m == 2 then (if Leap(y) then 29 else 28) else if m in {4, 6, 9, 11} then 30 else 31
  }

  predicate Valid(t: Timestamp) {
    && 1000 <= t.year <= 9999 && 1 <= t.month <= 12 && 1 <= t.day <= MonthLength(t.year, t.month)
    && t.hour < 24 && t.minute < 60 && t.second < 60
  }

  function DaysBeforeMonth(y: nat, m: nat): nat {
    if m <= 1 then 0 else DaysBeforeMonth(y, m - 1) + MonthLength(y, m - 1)
  }
  function DaysBeforeYear(y: nat): nat { if y <= 1 then 0 else DaysBeforeYear(y - 1) + DaysBeforeMonth(y - 1, 13) }

  /** Seconds since the start of year one. */
  function Seconds(t: Timestamp): int {
    var days := DaysBeforeYear(t.year) + DaysBeforeMonth(t.year, t.month) + t.day;
    ((days * 24 + t.hour) * 60 + t.minute) * 60 + t.second
  }

  lemma {:induction false} MonthsMonotone(y: nat, m: nat, n: nat)
    requires 1 <= m < n
    ensures DaysBeforeMonth(y, m) + MonthLength(y, m) <= DaysBeforeMonth(y, n)
  {
    if m + 1 < n { MonthsMonotone(y, m, n - 1); }
  }

  lemma {:induction false} YearsMonotone(y: nat, z: nat)
    requires 1 <= y < z
    ensures DaysBeforeYear(y) + DaysBeforeMonth(y, 13) <= DaysBeforeYear(z)
  {
    if y + 1 < z { YearsMonotone(y, z - 1); }
  }

  /** The order of the fields, most significant first. */
  predicate Earlier(a: Timestamp, b: Timestamp) {
    a.year < b.year || (a.year == b.year &&
    (a.month < b.month || (a.month == b.month &&
    (a.day < b.day || (a.day == b.day &&
    (a.hour < b.hour || (a.hour == b.hour &&
    (a.minute < b.minute || (a.minute == b.minute &&
    a.second < b.second)))))))))
  }

  function Day(t: Timestamp): nat { DaysBeforeYear(t.year) + DaysBeforeMonth(t.year, t.month) + t.day }

  lemma EarlierDay(a: Timestamp, b: Timestamp)
    requires Valid(a) && Valid(b)
    ensures a.year < b.year || (a.year == b.year && (a.month < b.month || (a.month == b.month && a.day < b.day))) ==>
        Day(a) < Day(b)
  {
    MonthsMonotone(a.year, a.month, 13);
    if a.year < b.year { YearsMonotone(a.year, b.year); }
    if a.month < b.month { MonthsMonotone(a.year, a.month, b.month); }
  }

  lemma EarlierIsChronological(a: Timestamp, b: Timestamp)
    requires Valid(a) && Valid(b)
    ensures Earlier(a, b) <==> Seconds(a) < Seconds(b)
    ensures a == b <==> Seconds(a) == Seconds(b)
  {
    EarlierDay(a, b);
    EarlierDay(b, a);
  }

  // ---------- Names ----------

  function Stamp(t: Timestamp): string {
    Fixed(t.year, 4) + (Fixed(t.month, 2)
        + (Fixed(t.day, 2) + ("T" + (Fixed(t.hour, 2) + (Fixed(t.minute, 2) + (Fixed(t.second, 2) + "Z"))))))
  }

  function BackupId(prefix: string, t: Timestamp, trigger: string): string {
    prefix + "-" + Stamp(t) + Suffix(trigger)
  }

  lemma TailOrder(a: Timestamp, b: Timestamp, x: string, y: string)
    requires Valid(a) && Valid(b) && a.year == b.year && a.month == b.month && a.day == b.day && Earlier(a, b)
    ensures Less("T" + TimeThen(a, x), "T" + TimeThen(b, y))
  {
    assert Pow10(2) == 100;
    FixedOrder(a.second, b.second, 2, x, y);
    FixedOrder(a.minute, b.minute, 2, Fixed(a.second, 2) + x, Fixed(b.second, 2) + y);
    FixedOrder(a.hour, b.hour, 2, Fixed(a.minute, 2) + (Fixed(a.second, 2) + x),
        Fixed(b.minute, 2) + (Fixed(b.second, 2) + y));
    LessAfterPrefix("T", TimeThen(a, x), TimeThen(b, y));
  }

  lemma StampThen(t: Timestamp, x: string)
    ensures Stamp(t) + x == Fixed(t.year, 4) + (Fixed(t.month, 2) + (Fixed(t.day, 2) + ("T" + TimeThen(t, "Z" + x))))
  {}

  function TimeThen(t: Timestamp, x: string): string {
    Fixed(t.hour, 2) + (Fixed(t.minute, 2) + (Fixed(t.second, 2) + x))
  }

  /** The earlier stamp comes first in the text order, whatever follows the stamps. */
  lemma StampOrder(a: Timestamp, b: Timestamp, x: string, y: string)
    requires Valid(a) && Valid(b) && Earlier(a, b)
    ensures Less(Stamp(a) + x, Stamp(b) + y)
  {
    assert Pow10(2) == 100 && Pow10(4) == 10000 by { assert Pow10(3) == 1000; }
    var ta, tb := "T" + TimeThen(a, "Z" + x), "T" + TimeThen(b, "Z" + y);
    if a.year == b.year && a.month == b.month && a.day == b.day { TailOrder(a, b, "Z" + x, "Z" + y); }
    FixedOrder(a.day, b.day, 2, ta, tb);
    FixedOrder(a.month, b.month, 2, Fixed(a.day, 2) + ta, Fixed(b.day, 2) + tb);
    FixedOrder(a.year, b.year, 4, Fixed(a.month, 2) + (Fixed(a.day, 2) + ta),
        Fixed(b.month, 2) + (Fixed(b.day, 2) + tb));
    StampThen(a, x);
    StampThen(b, y);
  }

  function Suffix(trigger: string): string { if trigger != "manual" then "-" + trigger else "" }

  lemma NamesInOrder(prefix: string, a: Timestamp, b: Timestamp, triggerA: string, triggerB: string, extension: string)
    requires Valid(a) && Valid(b) && Earlier(a, b)
    ensures Less(BackupId(prefix, a, triggerA) + extension, BackupId(prefix, b, triggerB) + extension)
  {
    var p, x, y := prefix + "-", Suffix(triggerA) + extension, Suffix(triggerB) + extension;
    StampOrder(a, b, x, y);
    LessAfterPrefix(p, Stamp(a) + x, Stamp(b) + y);
    assert BackupId(prefix, a, triggerA) + extension == p + (Stamp(a) + x);
    assert BackupId(prefix, b, triggerB) + extension == p + (Stamp(b) + y);
  }

  /** For backups of one prefix in different seconds, the order of the names, with any extension,
      is the order of time. */
  lemma NamesSortByTime(prefix: string, a: Timestamp, b: Timestamp, triggerA: string, triggerB: string,
      extension: string)
    requires Valid(a) && Valid(b) && Seconds(a) != Seconds(b)
    ensures Less(BackupId(prefix, a, triggerA) + extension, BackupId(prefix, b, triggerB) + extension) <==>
        Seconds(a) < Seconds(b)
  {
    EarlierIsChronological(a, b);
    EarlierIsChronological(b, a);
    if Earlier(a, b) {
      NamesInOrder(prefix, a, b, triggerA, triggerB, extension);
    } else {
      NamesInOrder(prefix, b, a, triggerB, triggerA, extension);
      LessTotal(BackupId(prefix, a, triggerA) + extension, BackupId(prefix, b, triggerB) + extension);
    }
  }
}
