/** The month bucket key `"<year>-<MM>"` that tags every expense and revenue
    and that the dashboard filters on. */
module BucketKey {
  import opened Common
  import opened Calendar
  import opened Text

  /** The two-digit month `String(month0 + 1).padStart(2, "0")`. */
  function MonthText(month0: int): string
    requires 0 <= month0 < 12
  {
    PadStart(NatToString(month0 + 1), 2, '0')
  }

  /** `${year}-${String(month0 + 1).padStart(2, "0")}`. */
  function YearMonthKey(year: int, month0: int): string
    requires 0 <= month0 < 12
  {
    IntToString(year) + "-" + MonthText(month0)
  }

  /** The key a controller derives from a request's `date` field: a JavaScript
      Date is built from it and its local year and month are formatted. An
      absent or unusable date makes an invalid Date, whose year and month
      both render as "NaN". */
  function DateKey(date: Option<Date>): string {
    if date.Some? && ValidDate(date.value) then YearMonthKey(date.value.year, date.value.month0)
    else "NaN-NaN"
  }

  /** Text that `IntToString` could have produced: digits after an optional minus sign. */
  predicate YearText(t: string) {
    |t| >= 1 && (t[0] == '-' ==> AllDigits(t[1..])) && (t[0] != '-' ==> AllDigits(t))
  }

  /** Reads a key back into (year, month0); None when it is not of the form
      `<year>-<two digits>`. */
  function ParseKey(s: string): Option<(int, int)> {
    if |s| >= 4 && s[|s| - 3] == '-' && AllDigits(s[|s| - 2..]) && YearText(s[..|s| - 3])
    then Some((ParseInt(s[..|s| - 3]), ParseNat(s[|s| - 2..]) - 1))
    else None
  }

  /** The month part is always two digits holding the 1-based month. */
  lemma MonthTextDigits(month0: int)
    requires 0 <= month0 < 12
    ensures |MonthText(month0)| == 2 && AllDigits(MonthText(month0))
    ensures ParseNat(MonthText(month0)) == month0 + 1
  {
    var n := NatToString(month0 + 1);
    ParseNatToString(month0 + 1);
    if month0 + 1 < 10 {
      assert MonthText(month0) == ['0'] + n;
      assert MonthText(month0)[..1] == ['0'];
    } else {
      assert |n| == 2 by {
        assert NatToString((month0 + 1) / 10) == ['1'];
      }
    }
  }

  /** For a four-digit year the key is seven characters `YYYY-MM` with the
      month between "01" and "12". */
  lemma KeyShape(year: int, month0: int)
    requires 1000 <= year <= 9999 && 0 <= month0 < 12
    ensures var key := YearMonthKey(year, month0);
      |key| == 7 && key[4] == '-' && AllDigits(key[..4]) && AllDigits(key[5..])
      && key[..4] == IntToString(year) && 1 <= ParseNat(key[5..]) <= 12
      && ParseNat(key[5..]) == month0 + 1
  {
    FourDigits(year);
    MonthTextDigits(month0);
    JoinedParts(IntToString(year), MonthText(month0));
  }

  lemma JoinedParts(y: string, mt: string)
    ensures var key := y + "-" + mt;
      |key| == |y| + 1 + |mt| && key[|y|] == '-' && key[..|y|] == y && key[|y| + 1..] == mt
  {
    var key := y + "-" + mt;
    assert key[..|y|] == y;
    assert key[|y| + 1..] == mt;
  }

  /** The key determines the year and month it was made from. */
  lemma KeyRoundTrip(year: int, month0: int)
    requires 0 <= month0 < 12
    ensures ParseKey(YearMonthKey(year, month0)) == Some((year, month0))
  {
    MonthTextDigits(month0);
    assert YearText(IntToString(year));
    ParseJoined(IntToString(year), MonthText(month0));
    IntToStringRoundTrip(year);
  }

  /** `ParseKey` reads back any year text joined to two digits. */
  lemma ParseJoined(y: string, mt: string)
    requires YearText(y) && |mt| == 2 && AllDigits(mt)
    ensures ParseKey(y + "-" + mt) == Some((ParseInt(y), ParseNat(mt) - 1))
  {
    var key := y + "-" + mt;
    var n := |key|;
    assert key[..n - 3] == y;
    assert key[n - 3] == '-';
    assert key[n - 2..] == mt;
  }

  /** Two dates share a bucket exactly when they share year and month. */
  lemma KeyInjective(y1: int, m1: int, y2: int, m2: int)
    requires 0 <= m1 < 12 && 0 <= m2 < 12
    ensures YearMonthKey(y1, m1) == YearMonthKey(y2, m2) <==> y1 == y2 && m1 == m2
  {
    KeyRoundTrip(y1, m1);
    KeyRoundTrip(y2, m2);
  }

  /** The position of the first '-' in `s`, or `|s|` when there is none. */
  function DashIndex(s: string): (k: nat)
    ensures k <= |s|
    ensures forall i :: 0 <= i < k ==> s[i] != '-'
    ensures k < |s| ==> s[k] == '-'
  {
    if s == [] || s[0] == '-' then 0 else 1 + DashIndex(s[1..])
  }

  lemma {:induction false} DashAfter(a: string, b: string)
    requires forall i :: 0 <= i < |a| ==> a[i] != '-'
    ensures DashIndex(a + "-" + b) == |a|
  {
    if a != [] {
      assert (a + "-" + b)[1..] == a[1..] + "-" + b;
      DashAfter(a[1..], b);
    }
  }

  /** Where the first '-' of a key falls: after the year's digits, or at the
      very start for a negative year. */
  lemma KeyDash(year: int, month0: int)
    requires 0 <= month0 < 12
    ensures var key := YearMonthKey(year, month0);
      (year >= 0 ==> DashIndex(key) == |IntToString(year)|)
      && (year < 0 ==> DashIndex(key) == 0)
      && key[..|IntToString(year)|] == IntToString(year)
  {
    var y := IntToString(year);
    var key := y + "-" + MonthText(month0);
    assert key == YearMonthKey(year, month0);
    assert key[..|y|] == y;
    if year >= 0 {
      assert forall i :: 0 <= i < |y| ==> y[i] != '-' by {
        assert AllDigits(y);
      }
      DashAfter(y, MonthText(month0));
    } else {
      assert key[0] == '-';
    }
  }

  /** The annual filter: a key starts with `ys + "-"`, for a non-empty year
      text without a minus sign, exactly when `ys` is the decimal rendering
      of the key's year. */
  lemma YearPrefixMatch(ys: string, year: int, month0: int)
    requires 0 <= month0 < 12
    requires |ys| >= 1 && forall i :: 0 <= i < |ys| ==> ys[i] != '-'
    ensures StartsWith(YearMonthKey(year, month0), ys + "-") <==> ys == IntToString(year)
  {
    var key := YearMonthKey(year, month0);
    var p := ys + "-";
    if ys == IntToString(year) {
      assert key[..|p|] == p;
    }
    if StartsWith(key, p) {
      assert key == ys + "-" + key[|p|..];
      DashAfter(ys, key[|p|..]);
      KeyDash(year, month0);
    }
  }

  /** A monthly key always lies inside the annual prefix of its own year. */
  lemma MonthInsideYear(year: int, month0: int)
    requires 0 <= month0 < 12
    ensures StartsWith(YearMonthKey(year, month0), IntToString(year) + "-")
  {
    var p := IntToString(year) + "-";
    assert YearMonthKey(year, month0)[..|p|] == p;
  }
}
