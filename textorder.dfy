/**
 * Timestamps are stored as `iso` text, and sqlite compares, groups and
 * sorts them as text (`MAX(datetime(ts))`, `BETWEEN`, `ORDER BY
 * datetime(ts)`). This module shows that text order and time order agree,
 * so the model may compare instants as numbers.
 */
module TextOrder {
  import opened Ordering
  import opened Clock

  /** The fields of an instant within their ranges. */
  predicate InRange(c: Civil)
  {
    ValidDate(c.year, c.month, c.day) && 0 <= c.hour < 24 && 0 <= c.minute < 60 && 0 <= c.second < 60
  }

  /** Field `k`, most significant first: year, month, day, hour, minute, second. */
  function Field(c: Civil, k: int): int
  {
    if k <= 0 then c.year else if k == 1 then c.month else if k == 2 then c.day
    else if k == 3 then c.hour else if k == 4 then c.minute else c.second
  }

  /** The separator written before field `k`. */
  function Sep(k: int): char
  {
    if k <= 2 then '-' else if k == 3 then ' ' else ':'
  }

  /** The text of fields `0..k`, as `iso` writes them. */
  function Prefix(c: Civil, k: nat): (s: string)
    requires InRange(c) && k <= 5
    ensures |s| == 4 + 3 * k
  {
    if k == 0 then Four(c.year) else Prefix(c, k - 1) + [Sep(k)] + Two(Field(c, k))
  }

  /** Fields `0..k` agree. */
  predicate Same(c1: Civil, c2: Civil, k: int)
  {
    forall j | 0 <= j <= k :: Field(c1, j) == Field(c2, j)
  }

  /** Fields `0..k` of `c1` come lexicographically before those of `c2`. */
  predicate Before(c1: Civil, c2: Civil, k: nat)
  {
    if k == 0 then c1.year < c2.year
    else Before(c1, c2, k - 1) || (Same(c1, c2, k - 1) && Field(c1, k) < Field(c2, k))
  }

  /** The instant of a set of fields. */
  function Instant(c: Civil): int
    requires 1 <= c.month <= 12
  {
    DayNumber(c.year, c.month, c.day) * 86400 + c.hour * 3600 + c.minute * 60 + c.second
  }

  /* ---------------- Text comparison ---------------- */

  /** A common prefix neither decides nor hides a comparison. */
  lemma {:induction false} StrLeAppendSame(p: string, q: string, q': string)
    ensures StrLe(q, q') ==> StrLe(p + q, p + q')
    ensures q != q' ==> p + q != p + q'
    decreases |p|
  {
    if p == [] {
      assert p + q == q && p + q' == q';
    } else {
      StrLeAppendSame(p[1..], q, q');
      assert (p + q)[1..] == p[1..] + q && (p + q')[1..] == p[1..] + q';
      assert (p + q)[0] == (p + q')[0] == p[0];
      if StrLe(q, q') {
        assert StrLe((p + q)[1..], (p + q')[1..]);
      }
    }
    if q != q' {
      assert (p + q)[|p|..] == q && (p + q')[|p|..] == q';
    }
  }

  /** Prefixes of one length that differ decide the comparison, whatever follows. */
  lemma {:induction false} StrLeAppendDiff(p: string, p': string, q: string, q': string)
    requires |p| == |p'| && p != p' && StrLe(p, p')
    ensures StrLe(p + q, p' + q') && p + q != p' + q'
    decreases |p|
  {
    assert (p + q)[..|p|] == p && (p' + q')[..|p|] == p';
    if p[0] == p'[0] {
      assert p[1..] != p'[1..] by {
        assert p == [p[0]] + p[1..] && p' == [p'[0]] + p'[1..];
      }
      StrLeAppendDiff(p[1..], p'[1..], q, q');
      assert (p + q)[1..] == p[1..] + q && (p' + q')[1..] == p'[1..] + q';
    }
  }

  lemma TwoBefore(n: int, m: int)
    requires 0 <= n < m < 100
    ensures Two(n) != Two(m) && StrLe(Two(n), Two(m))
  {
    var a, b := Two(n), Two(m);
    if n / 10 == m / 10 {
      assert a[0] == b[0] && a[1] < b[1];
      assert a[1..] != b[1..];
      assert StrLe(a[1..], b[1..]);
    } else {
      assert a[0] < b[0];
    }
  }

  lemma FourBefore(n: int, m: int)
    requires 0 <= n < m < 10000
    ensures Four(n) != Four(m) && StrLe(Four(n), Four(m))
  {
    if n / 100 == m / 100 {
      TwoBefore(n % 100, m % 100);
      StrLeAppendSame(Two(n / 100), Two(n % 100), Two(m % 100));
    } else {
      TwoBefore(n / 100, m / 100);
      StrLeAppendDiff(Two(n / 100), Two(m / 100), Two(n % 100), Two(m % 100));
    }
  }

  /** One more field: the order of the texts of fields `0..k` follows from that of fields `0..k-1`. */
  lemma PrefixStep(c1: Civil, c2: Civil, k: nat)
    requires InRange(c1) && InRange(c2) && 1 <= k <= 5
    requires Same(c1, c2, k - 1) ==> Prefix(c1, k - 1) == Prefix(c2, k - 1)
    requires Before(c1, c2, k - 1) ==> Prefix(c1, k - 1) != Prefix(c2, k - 1) && StrLe(Prefix(c1, k - 1), Prefix(c2, k - 1))
    ensures Same(c1, c2, k) ==> Prefix(c1, k) == Prefix(c2, k)
    ensures Before(c1, c2, k) ==> Prefix(c1, k) != Prefix(c2, k) && StrLe(Prefix(c1, k), Prefix(c2, k))
  {
    var p1, p2 := Prefix(c1, k - 1), Prefix(c2, k - 1);
    var f1, f2 := Field(c1, k), Field(c2, k);
    var r1, r2 := [Sep(k)] + Two(f1), [Sep(k)] + Two(f2);
    assert Prefix(c1, k) == p1 + r1 && Prefix(c2, k) == p2 + r2;
    if Before(c1, c2, k - 1) {
      StrLeAppendDiff(p1, p2, r1, r2);
    } else if Same(c1, c2, k - 1) && f1 < f2 {
      TwoBefore(f1, f2);
      StrLeAppendSame([Sep(k)], Two(f1), Two(f2));
      StrLeAppendSame(p1, r1, r2);
    }
  }

  /** Field order decides text order, field by field. */
  lemma {:induction false} PrefixOrder(c1: Civil, c2: Civil, k: nat)
    requires InRange(c1) && InRange(c2) && k <= 5
    ensures Same(c1, c2, k) ==> Prefix(c1, k) == Prefix(c2, k)
    ensures Before(c1, c2, k) ==> Prefix(c1, k) != Prefix(c2, k) && StrLe(Prefix(c1, k), Prefix(c2, k))
  {
    if k == 0 {
      if c1.year < c2.year {
        FourBefore(c1.year, c2.year);
      }
      if Same(c1, c2, 0) {
        assert Field(c1, 0) == Field(c2, 0);
      }
    } else {
      PrefixOrder(c1, c2, k - 1);
      PrefixStep(c1, c2, k);
    }
  }

  /** The `iso` text is the text of all six fields. */
  lemma PrefixIso(t: int)
    requires 0 <= t < MaxInstant
    ensures InRange(CivilOf(t)) && Prefix(CivilOf(t), 5) == Iso(t)
  {
    var c := CivilOf(t);
    assert Prefix(c, 1) == Four(c.year) + "-" + Two(c.month);
    assert Prefix(c, 2) == Prefix(c, 1) + "-" + Two(c.day);
    assert Prefix(c, 3) == Prefix(c, 2) + " " + Two(c.hour);
    assert Prefix(c, 4) == Prefix(c, 3) + ":" + Two(c.minute);
    assert Prefix(c, 5) == Prefix(c, 4) + ":" + Two(c.second);
  }

  /* ---------------- Time comparison ---------------- */

  lemma DaysBeforeMonthMono(y: int, m: int, m': int)
    requires 1 <= m <= m' <= 13
    ensures DaysBeforeMonth(y, m) <= DaysBeforeMonth(y, m')
  {
  }

  /** An earlier date has a smaller day number. */
  lemma DayNumberBefore(c1: Civil, c2: Civil)
    requires InRange(c1) && InRange(c2) && Before(c1, c2, 2)
    ensures DayNumber(c1.year, c1.month, c1.day) < DayNumber(c2.year, c2.month, c2.day)
  {
    DaysBeforeMonthStep(c1.year, c1.month);
    if Before(c1, c2, 0) {
      DaysBeforeMonthMono(c1.year, c1.month + 1, 13);
      DaysBeforeYearMono(c1.year + 1, c2.year);
    } else if Before(c1, c2, 1) {
      assert Field(c1, 0) == Field(c2, 0);
      DaysBeforeMonthMono(c1.year, c1.month + 1, c2.month);
    } else {
      assert Field(c1, 0) == Field(c2, 0) && Field(c1, 1) == Field(c2, 1);
    }
  }

  /** The seconds since midnight. */
  function TimeOfDay(c: Civil): int
  {
    c.hour * 3600 + c.minute * 60 + c.second
  }

  lemma TimeOfDayBounds(c: Civil)
    requires InRange(c)
    ensures 0 <= TimeOfDay(c) < 86400
  {
  }

  /** Of two instants agreeing up to the date, the one with earlier time fields is earlier. */
  lemma TimeBefore(c1: Civil, c2: Civil, k: nat)
    requires InRange(c1) && InRange(c2) && 3 <= k <= 5 && Before(c1, c2, k)
    ensures Before(c1, c2, 2) || (Same(c1, c2, 2) && TimeOfDay(c1) < TimeOfDay(c2))
  {
    if k > 3 && Before(c1, c2, k - 1) {
      TimeBefore(c1, c2, k - 1);
    } else if k == 3 {
    } else {
      assert Same(c1, c2, k - 1);
      assert Field(c1, 3) == Field(c2, 3);
      if k == 5 {
        assert Field(c1, 4) == Field(c2, 4);
      }
    }
  }

  lemma InstantBefore(c1: Civil, c2: Civil)
    requires InRange(c1) && InRange(c2) && Before(c1, c2, 5)
    ensures Instant(c1) < Instant(c2)
  {
    TimeBefore(c1, c2, 5);
    TimeOfDayBounds(c1);
    TimeOfDayBounds(c2);
    var n1, n2 := DayNumber(c1.year, c1.month, c1.day), DayNumber(c2.year, c2.month, c2.day);
    assert Instant(c1) == n1 * 86400 + TimeOfDay(c1) && Instant(c2) == n2 * 86400 + TimeOfDay(c2);
    if Before(c1, c2, 2) {
      DayNumberBefore(c1, c2);
      assert (n1 + 1) * 86400 <= n2 * 86400;
    } else {
      assert Field(c1, 0) == Field(c2, 0) && Field(c1, 1) == Field(c2, 1) && Field(c1, 2) == Field(c2, 2);
    }
  }

  /** Any two sets of fields agree or one comes first. */
  lemma {:induction false} BeforeTotal(c1: Civil, c2: Civil, k: nat)
    ensures Same(c1, c2, k) || Before(c1, c2, k) || Before(c2, c1, k)
  {
    if k > 0 {
      BeforeTotal(c1, c2, k - 1);
      if Same(c1, c2, k - 1) && Field(c1, k) == Field(c2, k) {
        assert Same(c1, c2, k);
      }
    }
  }

  /**
   * Text order is time order: `iso(t1) <= iso(t2)` as text exactly when
   * `t1 <= t2`, and two instants with the same text are the same instant.
   */
  lemma IsoOrder(t1: int, t2: int)
    requires 0 <= t1 < MaxInstant && 0 <= t2 < MaxInstant
    ensures t1 <= t2 <==> StrLe(Iso(t1), Iso(t2))
    ensures Iso(t1) == Iso(t2) <==> t1 == t2
  {
    var c1, c2 := CivilOf(t1), CivilOf(t2);
    PrefixIso(t1);
    PrefixIso(t2);
    assert Instant(c1) == t1 && Instant(c2) == t2;
    BeforeTotal(c1, c2, 5);
    PrefixOrder(c1, c2, 5);
    PrefixOrder(c2, c1, 5);
    if Same(c1, c2, 5) {
      assert Field(c1, 0) == Field(c2, 0) && Field(c1, 1) == Field(c2, 1) && Field(c1, 2) == Field(c2, 2);
      assert Field(c1, 3) == Field(c2, 3) && Field(c1, 4) == Field(c2, 4) && Field(c1, 5) == Field(c2, 5);
      assert c1 == c2;
      StrLeRefl(Iso(t1));
    } else if Before(c1, c2, 5) {
      InstantBefore(c1, c2);
    } else {
      InstantBefore(c2, c1);
      if StrLe(Iso(t1), Iso(t2)) {
        StrLeAntisym(Iso(t1), Iso(t2));
      }
    }
  }

  /** The order the history queries return rows in is also the order of their text. */
  lemma IsoMonotone(t1: int, t2: int)
    requires 0 <= t1 <= t2 < MaxInstant
    ensures StrLe(Iso(t1), Iso(t2))
  {
    IsoOrder(t1, t2);
  }
}
