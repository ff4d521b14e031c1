/** Timestamps as text (`getCurrentTimestamp` in `src/database/database.cpp`). */
module Timestamps {
  import opened Cars

  /** Broken-down local time. */
  datatype DateTime = DateTime(year: nat, month: nat, day: nat, hour: nat, minute: nat, second: nat)

  /** Four-digit years, and two digits for everything else. */
  predicate Printable(d: DateTime) {
    1000 <= d.year <= 9999 && d.month < 100 && d.day < 100 && d.hour < 100 && d.minute < 100 && d.second < 100
  }

  /** The order of time, most significant part first. */
  predicate NotAfter(a: DateTime, b: DateTime) {
    a.year < b.year || (a.year == b.year && (
    a.month < b.month || (a.month == b.month && (
    a.day < b.day || (a.day == b.day && (
    a.hour < b.hour || (a.hour == b.hour && (
    a.minute < b.minute || (a.minute == b.minute && a.second <= b.second)))))))))
  }

  function Digit(n: nat): char
    requires n < 10
  {
    ('0' as int + n) as char
  }

  /** `%m` and its like: at least two digits, zero padded. */
  function Two(n: nat): string
    requires n < 100
  {
    [Digit(n / 10), Digit(n % 10)]
  }

  /** `%Y` for a four-digit year. */
  function Four(n: nat): string
    requires n < 10000
  {
    Two(n / 100) + Two(n % 100)
  }

  /** `%Y-%m-%d %H:%M:%S` */
  function Format(d: DateTime): string
    requires Printable(d)
  {
    Four(d.year) + ("-" + (Two(d.month) + ("-" + (Two(d.day) + (" " + (Two(d.hour) + (":" + (Two(d.minute) + (":" + Two(d.second))))))))))
  }

  /** Byte-wise comparison, as in SQLite's default collation: a proper prefix comes first. */
  predicate TextLeq(s: string, t: string) {
    s == "" || (t != "" && (s[0] < t[0] || (s[0] == t[0] && TextLeq(s[1..], t[1..]))))
  }

  lemma {:induction false} TextLeqReflexive(s: string)
    ensures TextLeq(s, s)
  {
    if s == "" {
    } else {
      TextLeqReflexive(s[1..]);
    }
  }

  lemma {:induction false} TextLeqTransitive(s: string, t: string, u: string)
    requires TextLeq(s, t) && TextLeq(t, u)
    ensures TextLeq(s, u)
  {
    if s == "" || !(s[0] == t[0] == u[0]) {
    } else {
      TextLeqTransitive(s[1..], t[1..], u[1..]);
    }
  }

  lemma {:induction false} TextLeqTotal(s: string, t: string)
    ensures TextLeq(s, t) || TextLeq(t, s)
    ensures TextLeq(s, t) && TextLeq(t, s) ==> s == t
  {
    if s == "" || t == "" || s[0] != t[0] {
    } else {
      TextLeqTotal(s[1..], t[1..]);
      assert s == [s[0]] + s[1..] && t == [t[0]] + t[1..];
    }
  }

  /** Equally long heads decide the comparison unless they are equal. */
  lemma {:induction false} CompareHeads(a: string, b: string, x: string, y: string)
    requires |a| == |b|
    ensures TextLeq(a + x, b + y) <==> (if a == b then TextLeq(x, y) else TextLeq(a, b))
  {
    if a == "" {
      assert a + x == x && b + y == y;
    } else {
      assert (a + x)[1..] == a[1..] + x && (b + y)[1..] == b[1..] + y;
      assert a == b <==> a[0] == b[0] && a[1..] == b[1..] by {
        assert a == [a[0]] + a[1..] && b == [b[0]] + b[1..];
      }
      CompareHeads(a[1..], b[1..], x, y);
      TextLeqReflexive(a[1..]);
    }
  }

  lemma CompareDigit(m: nat, n: nat)
    requires m < 10 && n < 10
    ensures [Digit(m)] == [Digit(n)] <==> m == n
    ensures TextLeq([Digit(m)], [Digit(n)]) <==> m <= n
  {
    assert [Digit(m)][0] == Digit(m) && [Digit(n)][0] == Digit(n);
    assert TextLeq([Digit(m)][1..], [Digit(n)][1..]);
  }

  lemma CompareTwo(m: nat, n: nat)
    requires m < 100 && n < 100
    ensures Two(m) == Two(n) <==> m == n
    ensures TextLeq(Two(m), Two(n)) <==> m <= n
  {
    assert Two(m) == [Digit(m / 10)] + [Digit(m % 10)] && Two(n) == [Digit(n / 10)] + [Digit(n % 10)];
    CompareHeads([Digit(m / 10)], [Digit(n / 10)], [Digit(m % 10)], [Digit(n % 10)]);
    CompareDigit(m / 10, n / 10);
    CompareDigit(m % 10, n % 10);
  }

  lemma CompareFour(m: nat, n: nat)
    requires m < 10000 && n < 10000
    ensures Four(m) == Four(n) <==> m == n
    ensures TextLeq(Four(m), Four(n)) <==> m <= n
  {
    CompareTwo(m / 100, n / 100);
    CompareTwo(m % 100, n % 100);
    CompareHeads(Two(m / 100), Two(n / 100), Two(m % 100), Two(n % 100));
    assert Four(m)[..2] == Two(m / 100) && Four(n)[..2] == Two(n / 100);
    assert Four(m)[2..] == Two(m % 100) && Four(n)[2..] == Two(n % 100);
  }

  /** One two-digit part and what follows it. */
  lemma ComparePart(sep: string, m: nat, n: nat, x: string, y: string)
    requires m < 100 && n < 100
    ensures TextLeq(sep + (Two(m) + x), sep + (Two(n) + y)) <==> m < n || (m == n && TextLeq(x, y))
  {
    CompareHeads(sep, sep, Two(m) + x, Two(n) + y);
    CompareHeads(Two(m), Two(n), x, y);
    CompareTwo(m, n);
  }

  /** Text order is time order. */
  lemma TextOrderIsTimeOrder(a: DateTime, b: DateTime)
    requires Printable(a) && Printable(b)
    ensures TextLeq(Format(a), Format(b)) <==> NotAfter(a, b)
  {
    var sa := ":" + (Two(a.second) + "");
    var sb := ":" + (Two(b.second) + "");
    ComparePart(":", a.second, b.second, "", "");
    assert sa == ":" + Two(a.second) && sb == ":" + Two(b.second);
    var na := ":" + (Two(a.minute) + sa);
    var nb := ":" + (Two(b.minute) + sb);
    ComparePart(":", a.minute, b.minute, sa, sb);
    var ha := " " + (Two(a.hour) + na);
    var hb := " " + (Two(b.hour) + nb);
    ComparePart(" ", a.hour, b.hour, na, nb);
    var da := "-" + (Two(a.day) + ha);
    var db := "-" + (Two(b.day) + hb);
    ComparePart("-", a.day, b.day, ha, hb);
    var ma := "-" + (Two(a.month) + da);
    var mb := "-" + (Two(b.month) + db);
    ComparePart("-", a.month, b.month, da, db);
    CompareHeads(Four(a.year), Four(b.year), ma, mb);
    CompareFour(a.year, b.year);
    assert Format(a) == Four(a.year) + ma;
    assert Format(b) == Four(b.year) + mb;
  }

  /** Different times have different stamps. */
  lemma StampsDetermineTimes(a: DateTime, b: DateTime)
    requires Printable(a) && Printable(b)
    ensures Format(a) == Format(b) <==> a == b
  {
    TextOrderIsTimeOrder(a, b);
    TextOrderIsTimeOrder(b, a);
    TextLeqReflexive(Format(a));
  }

  // ----- Reading a timestamp -----

  predicate DigitsAt(s: string, i: nat)
    requires i + 1 < |s|
  {
    '0' <= s[i] <= '9' && '0' <= s[i + 1] <= '9'
  }

  function NumberAt(s: string, i: nat): nat
    requires i + 1 < |s| && DigitsAt(s, i)
  {
    (s[i] as int - '0' as int) * 10 + (s[i + 1] as int - '0' as int)
  }

  /** The time that a text like `2025-01-31 08:05:00` names. */
  function ReadStamp(s: string): Option<DateTime> {
    if |s| == 19 && s[4] == '-' && s[7] == '-' && s[10] == ' ' && s[13] == ':' && s[16] == ':'
       && DigitsAt(s, 0) && DigitsAt(s, 2) && DigitsAt(s, 5) && DigitsAt(s, 8)
       && DigitsAt(s, 11) && DigitsAt(s, 14) && DigitsAt(s, 17)
    then Some(DateTime(NumberAt(s, 0) * 100 + NumberAt(s, 2), NumberAt(s, 5), NumberAt(s, 8),
                       NumberAt(s, 11), NumberAt(s, 14), NumberAt(s, 17)))
    else None
  }

  lemma FormatChars(d: DateTime)
    requires Printable(d)
    ensures Format(d) == [
      Digit(d.year / 100 / 10), Digit(d.year / 100 % 10), Digit(d.year % 100 / 10), Digit(d.year % 100 % 10), '-',
      Digit(d.month / 10), Digit(d.month % 10), '-', Digit(d.day / 10), Digit(d.day % 10), ' ',
      Digit(d.hour / 10), Digit(d.hour % 10), ':', Digit(d.minute / 10), Digit(d.minute % 10), ':',
      Digit(d.second / 10), Digit(d.second % 10)]
  {
  }

  lemma TwoAt(s: string, i: nat, n: nat)
    requires i + 1 < |s| && n < 100
    ensures DigitsAt(s, i) && NumberAt(s, i) == n <==> s[i] == Digit(n / 10) && s[i + 1] == Digit(n % 10)
    ensures DigitsAt(s, i) ==> NumberAt(s, i) < 100
  {
  }

  lemma TwoHalves(year: nat, high: nat, low: nat)
    requires low < 100
    ensures high * 100 + low == year <==> high == year / 100 && low == year % 100
  {
  }

  /** The parts of a text of the right length. */
  lemma PartsAt(s: string, d: DateTime)
    requires Printable(d) && |s| == 19
    ensures ReadStamp(s) == Some(d) <==> (
      && s[0] == Digit(d.year / 100 / 10) && s[1] == Digit(d.year / 100 % 10)
      && s[2] == Digit(d.year % 100 / 10) && s[3] == Digit(d.year % 100 % 10) && s[4] == '-'
      && s[5] == Digit(d.month / 10) && s[6] == Digit(d.month % 10) && s[7] == '-'
      && s[8] == Digit(d.day / 10) && s[9] == Digit(d.day % 10) && s[10] == ' '
      && s[11] == Digit(d.hour / 10) && s[12] == Digit(d.hour % 10) && s[13] == ':'
      && s[14] == Digit(d.minute / 10) && s[15] == Digit(d.minute % 10) && s[16] == ':'
      && s[17] == Digit(d.second / 10) && s[18] == Digit(d.second % 10))
  {
    TwoAt(s, 0, d.year / 100);
    TwoAt(s, 2, d.year % 100);
    TwoAt(s, 5, d.month);
    TwoAt(s, 8, d.day);
    TwoAt(s, 11, d.hour);
    TwoAt(s, 14, d.minute);
    TwoAt(s, 17, d.second);
    if DigitsAt(s, 0) && DigitsAt(s, 2) {
      TwoHalves(d.year, NumberAt(s, 0), NumberAt(s, 2));
    }
  }

  /** A timestamp is read back as the time it was made of, and no other text is read as that time. */
  lemma StampRoundTrip(s: string, d: DateTime)
    requires Printable(d)
    ensures ReadStamp(s) == Some(d) <==> s == Format(d)
  {
    FormatChars(d);
    if |s| == 19 {
      PartsAt(s, d);
    }
  }

  /** Every text of the pattern with a year from 1000 on is the timestamp of a printable time. */
  lemma EveryStampIsPrintable(s: string)
    ensures var d := ReadStamp(s); d.Some? && d.value.year >= 1000 ==> Printable(d.value) && s == Format(d.value)
  {
    var d := ReadStamp(s);
    if d.Some? && d.value.year >= 1000 {
      TwoAt(s, 0, 0);
      TwoAt(s, 2, 0);
      TwoAt(s, 5, 0);
      TwoAt(s, 8, 0);
      TwoAt(s, 11, 0);
      TwoAt(s, 14, 0);
      TwoAt(s, 17, 0);
      StampRoundTrip(s, d.value);
    }
  }

  /** A proper prefix comes first. */
  lemma {:induction false} PrefixFirst(s: string, t: string)
    ensures TextLeq(s, s + t)
    ensures TextLeq(s + t, s) <==> t == ""
  {
    if s == "" {
    } else {
      assert (s + t)[1..] == s[1..] + t;
      PrefixFirst(s[1..], t);
    }
  }
}
