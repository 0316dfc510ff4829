/** The dashboard: the monthly and the annual summary of one user's
    revenues and expenses, each a filter over both collections followed by
    sums, and for the month a group-by of the expenses by category. */
module Dashboard {
  import opened Common
  import opened Calendar
  import opened Text
  import opened BucketKey
  import opened Collection
  import opened EntrySchema

  /** Which `yearMonth` values a summary takes: one exact key, or every key
      that starts with `"<year>-"`. */
  datatype Bucket = Month(key: string) | Year(year: string)

  predicate InBucket(yearMonth: string, b: Bucket) {
    match b
    case Month(key) => yearMonth == key
    case Year(ys) => StartsWith(yearMonth, ys + "-")
  }

  /** The `$match` stage `{ userId: owner, yearMonth: ... }`: the matching
      documents' entries, in stored order. */
  function Matching(docs: seq<Doc<Entry>>, owner: int, b: Bucket): (r: seq<Entry>)
    ensures |r| <= |docs|
    ensures forall k :: 0 <= k < |r| ==> InBucket(r[k].yearMonth, b)
  {
    if docs == [] then []
    else
      var last := docs[|docs| - 1];
      Matching(docs[..|docs| - 1], owner, b) + (if last.owner == owner && InBucket(last.data.yearMonth, b) then [last.data] else [])
  }

  /** Every document of the owner in the bucket is matched. */
  lemma {:induction false} MatchingKeeps(docs: seq<Doc<Entry>>, owner: int, b: Bucket, k: nat)
    requires k < |docs| && docs[k].owner == owner && InBucket(docs[k].data.yearMonth, b)
    ensures docs[k].data in Matching(docs, owner, b)
  {
    var init, last := docs[..|docs| - 1], docs[|docs| - 1];
    var tail := if last.owner == owner && InBucket(last.data.yearMonth, b) then [last.data] else [];
    assert Matching(docs, owner, b) == Matching(init, owner, b) + tail;
    if k < |docs| - 1 {
      assert init[k] == docs[k];
      MatchingKeeps(init, owner, b, k);
    } else {
      assert tail == [last.data];
    }
  }

  /** `$sum: "$amount"` over the entries; 0 for none. */
  function Sum(entries: seq<Entry>): real {
    if entries == [] then 0.0 else Sum(entries[..|entries| - 1]) + entries[|entries| - 1].amount
  }

  /** The sum of the amounts of the entries of one category. */
  function CategorySum(entries: seq<Entry>, category: string): real {
    if entries == [] then 0.0
    else
      var last := entries[|entries| - 1];
      CategorySum(entries[..|entries| - 1], category) + (if last.category == category then last.amount else 0.0)
  }

  /** One row of `expensesByCategory`: `{ _id: category, total }`. */
  datatype CategoryTotal = CategoryTotal(category: string, total: real)

  function Categories(groups: seq<CategoryTotal>): set<string> {
    set k | 0 <= k < |groups| :: groups[k].category
  }

  lemma CategoriesCons(g: CategoryTotal, rest: seq<CategoryTotal>)
    ensures Categories([g] + rest) == {g.category} + Categories(rest)
  {
    var s := [g] + rest;
    forall c | c in Categories(rest) ensures c in Categories(s) {
      var k :| 0 <= k < |rest| && rest[k].category == c;
      assert s[k + 1] == rest[k];
    }
    forall c | c in Categories(s) ensures c in {g.category} + Categories(rest) {
      var k :| 0 <= k < |s| && s[k].category == c;
      if k > 0 {
        assert s[k] == rest[k - 1];
      }
    }
    assert s[0] == g;
  }

  function EntryCategories(entries: seq<Entry>): set<string> {
    set k | 0 <= k < |entries| :: entries[k].category
  }

  predicate DistinctCategories(groups: seq<CategoryTotal>) {
    forall j, k :: 0 <= j < k < |groups| ==> groups[j].category != groups[k].category
  }

  /** The total of a category's row, or 0 when it has none. */
  function Lookup(groups: seq<CategoryTotal>, category: string): real {
    if groups == [] then 0.0
    else if groups[0].category == category then groups[0].total
    else Lookup(groups[1..], category)
  }

  function SumTotals(groups: seq<CategoryTotal>): real {
    if groups == [] then 0.0 else groups[0].total + SumTotals(groups[1..])
  }

  /** One entry's contribution to the `$group` accumulators: added to its
      category's row, or a new row when the category is new. */
  function AddTo(groups: seq<CategoryTotal>, category: string, amount: real): seq<CategoryTotal> {
    if groups == [] then [CategoryTotal(category, amount)]
    else if groups[0].category == category then [groups[0].(total := groups[0].total + amount)] + groups[1..]
    else [groups[0]] + AddTo(groups[1..], category, amount)
  }

  /** Adding an entry creates a row for its category only when there was none. */
  lemma {:induction false} AddToCategories(groups: seq<CategoryTotal>, category: string, amount: real)
    ensures Categories(AddTo(groups, category, amount)) == Categories(groups) + {category}
  {
    if groups != [] {
      assert groups == [groups[0]] + groups[1..];
      CategoriesCons(groups[0], groups[1..]);
      if groups[0].category == category {
        CategoriesCons(groups[0].(total := groups[0].total + amount), groups[1..]);
      } else {
        AddToCategories(groups[1..], category, amount);
        CategoriesCons(groups[0], AddTo(groups[1..], category, amount));
      }
    } else {
      assert [CategoryTotal(category, amount)] == [CategoryTotal(category, amount)] + [];
      CategoriesCons(CategoryTotal(category, amount), []);
    }
  }

  lemma {:induction false} AddToDistinct(groups: seq<CategoryTotal>, category: string, amount: real)
    requires DistinctCategories(groups)
    ensures DistinctCategories(AddTo(groups, category, amount))
  {
    if groups != [] && groups[0].category != category {
      var rest := AddTo(groups[1..], category, amount);
      AddToDistinct(groups[1..], category, amount);
      AddToCategories(groups[1..], category, amount);
      var r := [groups[0]] + rest;
      forall k | 0 < k < |r| ensures r[0].category != r[k].category {
        assert rest[k - 1].category in Categories(rest);
        if rest[k - 1].category != category {
          var j :| 0 <= j < |groups[1..]| && groups[1..][j].category == rest[k - 1].category;
          assert groups[j + 1] == groups[1..][j];
        }
      }
    }
  }

  /** Adding an entry raises its category's total by its amount and no other. */
  lemma {:induction false} AddToLookup(groups: seq<CategoryTotal>, category: string, amount: real, c: string)
    ensures Lookup(AddTo(groups, category, amount), c) == Lookup(groups, c) + (if c == category then amount else 0.0)
  {
    if groups != [] && groups[0].category != category {
      AddToLookup(groups[1..], category, amount, c);
    }
  }

  lemma {:induction false} AddToSumTotals(groups: seq<CategoryTotal>, category: string, amount: real)
    ensures SumTotals(AddTo(groups, category, amount)) == SumTotals(groups) + amount
  {
    if groups != [] && groups[0].category != category {
      AddToSumTotals(groups[1..], category, amount);
    }
  }

  /** `$group: { _id: "$category", total: { $sum: "$amount" } }`. */
  function GroupByCategory(entries: seq<Entry>): (r: seq<CategoryTotal>)
    ensures DistinctCategories(r)
    ensures Categories(r) == EntryCategories(entries)
    ensures forall c :: Lookup(r, c) == CategorySum(entries, c)
    ensures SumTotals(r) == Sum(entries)
  {
    if entries == [] then []
    else
      var init, last := entries[..|entries| - 1], entries[|entries| - 1];
      assert EntryCategories(entries) == EntryCategories(init) + {last.category} by {
        assert forall k :: 0 <= k < |init| ==> init[k] == entries[k];
      }
      var g := GroupByCategory(init);
      AddToCategories(g, last.category, last.amount);
      AddToDistinct(g, last.category, last.amount);
      AddToSumTotals(g, last.category, last.amount);
      assert forall c :: Lookup(AddTo(g, last.category, last.amount), c) == CategorySum(entries, c) by {
        forall c ensures Lookup(AddTo(g, last.category, last.amount), c) == CategorySum(entries, c) {
          AddToLookup(g, last.category, last.amount, c);
        }
      }
      AddTo(g, last.category, last.amount)
  }

  /** The filter key of the monthly summary: `"<year>-<month padded to two>"`
      when both query parameters are given and non-empty, otherwise the
      clock's current month. The parameters are taken as they come; a month
      of one or two digits and a year in decimal select the bucket of that
      year and month, and without them the key is that of the current month. */
  function MonthlyKey(month: Option<string>, year: Option<string>, now: Date): (key: string)
    requires ValidDate(now)
    ensures QueryGiven(month, year) ==> key == QueryKey(year.value, month.value)
    ensures QueryGiven(month, year) && NumericQuery(year.value, month.value) ==>
              ParseKey(key) == Some((ParseInt(year.value), ParseNat(month.value) - 1))
    ensures !QueryGiven(month, year) ==> key == YearMonthKey(now.year, now.month0)
  {
    if QueryGiven(month, year) then
      QueryKeyReadsBack(year.value, month.value);
      QueryKey(year.value, month.value)
    else YearMonthKey(now.year, now.month0)
  }

  /** `month && year`: both present and, being strings, non-empty. */
  predicate QueryGiven(month: Option<string>, year: Option<string>) {
    month.Some? && month.value != "" && year.Some? && year.value != ""
  }

  /** A month of one or two decimal digits and a year as `IntToString` renders one. */
  predicate NumericQuery(y: string, m: string) {
    1 <= |m| <= 2 && AllDigits(m) && YearText(y)
  }

  /** `${year}-${month.padStart(2, "0")}` for the query's own texts. */
  function QueryKey(y: string, m: string): string {
    y + "-" + PadStart(m, 2, '0')
  }

  /** A one- or two-digit month padded to two and joined to a decimal year
      reads back as that year and month. */
  lemma QueryKeyReadsBack(y: string, m: string)
    ensures NumericQuery(y, m) ==> ParseKey(QueryKey(y, m)) == Some((ParseInt(y), ParseNat(m) - 1))
  {
    if NumericQuery(y, m) {
      if |m| == 1 {
        PaddedDigit(m);
        ParseNatLeadingZero(m);
        ParseJoined(y, ['0'] + m);
      } else {
        assert PadStart(m, 2, '0') == m;
        ParseJoined(y, m);
      }
    }
  }

  lemma PaddedDigit(m: string)
    requires |m| == 1
    ensures PadStart(m, 2, '0') == ['0'] + m
  {
    assert Repeat('0', 1) == ['0'];
  }

  datatype Monthly = Monthly(revenues: real, expenses: real, balance: real, expensesByCategory: seq<CategoryTotal>)

  /** The three aggregations over the matched revenues and expenses. */
  function Summarize(revenues: seq<Entry>, expenses: seq<Entry>): Monthly {
    Monthly(Sum(revenues), Sum(expenses), Sum(revenues) - Sum(expenses), GroupByCategory(expenses))
  }

  /** getMonthlySummary over the two collections. */
  function MonthlySummary(caller: int, month: Option<string>, year: Option<string>, now: Date,
                          revenues: seq<Doc<Entry>>, expenses: seq<Doc<Entry>>, fault: Option<Fault>): (r: Result<Monthly>)
    requires ValidDate(now)
    ensures fault.Some? <==> r == Err(Internal)
    ensures fault.None? ==> r.Ok?
    ensures r.Ok? ==> r.value.balance == r.value.revenues - r.value.expenses
    ensures r.Ok? ==> var b := Month(MonthlyKey(month, year, now));
      && r.value.revenues == Sum(Matching(revenues, caller, b))
      && r.value.expenses == Sum(Matching(expenses, caller, b))
      && r.value.expensesByCategory == GroupByCategory(Matching(expenses, caller, b))
    ensures r.Ok? ==> SumTotals(r.value.expensesByCategory) == r.value.expenses
  {
    if fault.Some? then Err(Internal)
    else
      var b := Month(MonthlyKey(month, year, now));
      Ok(Summarize(Matching(revenues, caller, b), Matching(expenses, caller, b)))
  }

  datatype Annual = Annual(year: string, revenues: real, expenses: real, balance: real)

  /** getAnnualSummary: a missing or empty `year` is a 400 before any query. */
  function AnnualSummary(caller: int, year: Option<string>,
                         revenues: seq<Doc<Entry>>, expenses: seq<Doc<Entry>>, fault: Option<Fault>): (r: Result<Annual>)
    ensures year.None? || year.value == "" <==> r == Err(BadRequest)
    ensures year.Some? && year.value != "" && fault.Some? <==> r == Err(Internal)
    ensures year.Some? && year.value != "" && fault.None? ==> r.Ok?
    ensures r.Ok? ==> && r.value.year == year.value
                      && r.value.revenues == Sum(Matching(revenues, caller, Year(year.value)))
                      && r.value.expenses == Sum(Matching(expenses, caller, Year(year.value)))
                      && r.value.balance == r.value.revenues - r.value.expenses
  {
    if year.None? || year.value == "" then Err(BadRequest)
    else if fault.Some? then Err(Internal)
    else
      var rev := Sum(Matching(revenues, caller, Year(year.value)));
      var exp := Sum(Matching(expenses, caller, Year(year.value)));
      Ok(Annual(year.value, rev, exp, rev - exp))
  }

  /** Filtering distributes over concatenation. */
  lemma {:induction false} MatchingConcat(a: seq<Doc<Entry>>, c: seq<Doc<Entry>>, owner: int, b: Bucket)
    ensures Matching(a + c, owner, b) == Matching(a, owner, b) + Matching(c, owner, b)
  {
    if c == [] {
      assert a + c == a;
    } else {
      assert (a + c)[..|a + c| - 1] == a + c[..|c| - 1];
      MatchingConcat(a, c[..|c| - 1], owner, b);
    }
  }

  /** A document of another owner, or outside the bucket, wherever it sits,
      contributes nothing. */
  lemma NonMatchingIgnored(a: seq<Doc<Entry>>, d: Doc<Entry>, c: seq<Doc<Entry>>, owner: int, b: Bucket)
    requires d.owner != owner || !InBucket(d.data.yearMonth, b)
    ensures Matching(a + [d] + c, owner, b) == Matching(a + c, owner, b)
  {
    assert Matching([d], owner, b) == [] by {
      assert [d][..0] == [];
    }
    calc {
      Matching(a + [d] + c, owner, b);
      { MatchingConcat(a + [d], c, owner, b); }
      Matching(a + [d], owner, b) + Matching(c, owner, b);
      { MatchingConcat(a, [d], owner, b); }
      Matching(a, owner, b) + Matching(c, owner, b);
      { MatchingConcat(a, c, owner, b); }
      Matching(a + c, owner, b);
    }
  }

  /** Only the owner's own documents reach a summary. */
  lemma {:induction false} MatchingOwned(docs: seq<Doc<Entry>>, owner: int, b: Bucket)
    ensures Matching(docs, owner, b) == Matching(Owned(docs, owner), owner, b)
  {
    if docs != [] {
      var init, last := docs[..|docs| - 1], docs[|docs| - 1];
      MatchingOwned(init, owner, b);
      var tail := if last.owner == owner then [last] else [];
      MatchingConcat(Owned(init, owner), tail, owner, b);
      if last.owner == owner {
        assert [last][..0] == [];
      }
    }
  }

  /** Two collection states that show an owner the same documents give that
      owner the same monthly summary: whatever other owners store, change
      or delete never reaches it. */
  lemma MonthlyIsolated(caller: int, month: Option<string>, year: Option<string>, now: Date,
                        rev1: seq<Doc<Entry>>, exp1: seq<Doc<Entry>>,
                        rev2: seq<Doc<Entry>>, exp2: seq<Doc<Entry>>, fault: Option<Fault>)
    requires ValidDate(now)
    requires Owned(rev1, caller) == Owned(rev2, caller) && Owned(exp1, caller) == Owned(exp2, caller)
    ensures MonthlySummary(caller, month, year, now, rev1, exp1, fault) == MonthlySummary(caller, month, year, now, rev2, exp2, fault)
  {
    var m := Month(MonthlyKey(month, year, now));
    MatchingOwned(rev1, caller, m);
    MatchingOwned(rev2, caller, m);
    MatchingOwned(exp1, caller, m);
    MatchingOwned(exp2, caller, m);
    assert Matching(rev1, caller, m) == Matching(rev2, caller, m);
    assert Matching(exp1, caller, m) == Matching(exp2, caller, m);
  }

  /** The same for the annual summary. */
  lemma AnnualIsolated(caller: int, year: Option<string>,
                       rev1: seq<Doc<Entry>>, exp1: seq<Doc<Entry>>,
                       rev2: seq<Doc<Entry>>, exp2: seq<Doc<Entry>>, fault: Option<Fault>)
    requires Owned(rev1, caller) == Owned(rev2, caller) && Owned(exp1, caller) == Owned(exp2, caller)
    ensures AnnualSummary(caller, year, rev1, exp1, fault) == AnnualSummary(caller, year, rev2, exp2, fault)
  {
    if year.Some? {
      var y := Year(year.value);
      MatchingOwned(rev1, caller, y);
      MatchingOwned(rev2, caller, y);
      MatchingOwned(exp1, caller, y);
      MatchingOwned(exp2, caller, y);
    }
  }

  /** With no document of the owner in the bucket, nothing matches. */
  lemma {:induction false} NoneMatching(docs: seq<Doc<Entry>>, owner: int, b: Bucket)
    requires forall k :: 0 <= k < |docs| ==> docs[k].owner != owner || !InBucket(docs[k].data.yearMonth, b)
    ensures Matching(docs, owner, b) == []
  {
    if docs != [] {
      NoneMatching(docs[..|docs| - 1], owner, b);
    }
  }

  /** A monthly summary over a month with no records is zeros and an empty
      breakdown, not an error. */
  lemma MonthlyWithoutRecords(caller: int, month: Option<string>, year: Option<string>, now: Date,
                              revenues: seq<Doc<Entry>>, expenses: seq<Doc<Entry>>)
    requires ValidDate(now)
    requires forall k :: 0 <= k < |revenues| ==>
               revenues[k].owner != caller || !InBucket(revenues[k].data.yearMonth, Month(MonthlyKey(month, year, now)))
    requires forall k :: 0 <= k < |expenses| ==>
               expenses[k].owner != caller || !InBucket(expenses[k].data.yearMonth, Month(MonthlyKey(month, year, now)))
    ensures MonthlySummary(caller, month, year, now, revenues, expenses, None) == Ok(Monthly(0.0, 0.0, 0.0, []))
  {
    NoneMatching(revenues, caller, Month(MonthlyKey(month, year, now)));
    NoneMatching(expenses, caller, Month(MonthlyKey(month, year, now)));
  }

  /** An annual summary over a year with no records is zeros, not an error. */
  lemma AnnualWithoutRecords(caller: int, ys: string, revenues: seq<Doc<Entry>>, expenses: seq<Doc<Entry>>)
    requires ys != ""
    requires forall k :: 0 <= k < |revenues| ==> revenues[k].owner != caller || !InBucket(revenues[k].data.yearMonth, Year(ys))
    requires forall k :: 0 <= k < |expenses| ==> expenses[k].owner != caller || !InBucket(expenses[k].data.yearMonth, Year(ys))
    ensures AnnualSummary(caller, Some(ys), revenues, expenses, None) == Ok(Annual(ys, 0.0, 0.0, 0.0))
  {
    NoneMatching(revenues, caller, Year(ys));
    NoneMatching(expenses, caller, Year(ys));
  }

  /** The category breakdown is empty exactly when no expense matched. */
  lemma GroupEmptyIff(entries: seq<Entry>)
    ensures GroupByCategory(entries) == [] <==> entries == []
  {
    if entries != [] {
      assert entries[0].category in EntryCategories(entries);
    }
  }

  lemma {:induction false} LookupRow(groups: seq<CategoryTotal>, k: nat)
    requires DistinctCategories(groups) && k < |groups|
    ensures Lookup(groups, groups[k].category) == groups[k].total
  {
    if k > 0 {
      LookupRow(groups[1..], k - 1);
    }
  }

  /** Every row of the breakdown holds its category's sum, one row per
      category that occurs. */
  lemma GroupRows(entries: seq<Entry>)
    ensures var g := GroupByCategory(entries);
      forall k :: 0 <= k < |g| ==> g[k].total == CategorySum(entries, g[k].category)
  {
    var g := GroupByCategory(entries);
    forall k | 0 <= k < |g| ensures g[k].total == CategorySum(entries, g[k].category) {
      LookupRow(g, k);
    }
  }

  /** A month query sent as the plain or padded month number and the
      year's digits selects the key create and replace store. */
  lemma MonthlyKeyAgrees(y: int, m0: int, now: Date)
    requires 0 <= m0 < 12 && ValidDate(now)
    ensures MonthlyKey(Some(NatToString(m0 + 1)), Some(IntToString(y)), now) == YearMonthKey(y, m0)
    ensures MonthlyKey(Some(MonthText(m0)), Some(IntToString(y)), now) == YearMonthKey(y, m0)
  {
    var ys, mt := IntToString(y), MonthText(m0);
    assert ys != "" && NatToString(m0 + 1) != "";
    assert mt == PadStart(NatToString(m0 + 1), 2, '0');
    MonthTextDigits(m0);
    assert PadStart(mt, 2, '0') == mt;
  }

  /** A document whose key agrees with its date is in a month's bucket
      exactly when it is dated in that month. */
  lemma InMonthBucket(e: Entry, y: int, m0: int)
    requires Consistent(e) && 0 <= m0 < 12
    ensures InBucket(e.yearMonth, Month(YearMonthKey(y, m0))) <==> e.date.year == y && e.date.month0 == m0
  {
    KeyInjective(e.date.year, e.date.month0, y, m0);
  }

  /** A document whose key agrees with its date is in a year's bucket
      exactly when its year renders as the query's text. */
  lemma InYearBucket(e: Entry, ys: string)
    requires Consistent(e)
    requires |ys| >= 1 && forall i :: 0 <= i < |ys| ==> ys[i] != '-'
    ensures InBucket(e.yearMonth, Year(ys)) <==> ys == IntToString(e.date.year)
  {
    YearPrefixMatch(ys, e.date.year, e.date.month0);
  }

  predicate AllConsistent(docs: seq<Doc<Entry>>) {
    forall k :: 0 <= k < |docs| ==> Consistent(docs[k].data)
  }

  /** The first `n` monthly totals of a year, added up. */
  function MonthsTotal(docs: seq<Doc<Entry>>, owner: int, y: int, n: nat): real
    requires n <= 12
  {
    if n == 0 then 0.0 else MonthsTotal(docs, owner, y, n - 1) + Sum(Matching(docs, owner, Month(YearMonthKey(y, n - 1))))
  }

  lemma {:induction false} MonthsTotalEmpty(owner: int, y: int, n: nat)
    requires n <= 12
    ensures MonthsTotal([], owner, y, n) == 0.0
  {
    if n > 0 {
      MonthsTotalEmpty(owner, y, n - 1);
    }
  }

  /** What the last document adds to a bucket's total. */
  lemma SumMatchingLast(docs: seq<Doc<Entry>>, owner: int, b: Bucket)
    requires docs != []
    ensures var last := docs[|docs| - 1];
      Sum(Matching(docs, owner, b))
        == Sum(Matching(docs[..|docs| - 1], owner, b)) + (if last.owner == owner && InBucket(last.data.yearMonth, b) then last.data.amount else 0.0)
  {
    var last := docs[|docs| - 1];
    var m := Matching(docs[..|docs| - 1], owner, b);
    if last.owner == owner && InBucket(last.data.yearMonth, b) {
      assert Matching(docs, owner, b) == m + [last.data];
      assert (m + [last.data])[..|m|] == m;
    } else {
      assert Matching(docs, owner, b) == m + [];
      assert m + [] == m;
    }
  }

  lemma {:induction false} MonthsTotalStep(docs: seq<Doc<Entry>>, owner: int, y: int, n: nat)
    requires n <= 12 && docs != [] && Consistent(docs[|docs| - 1].data)
    ensures var last := docs[|docs| - 1];
      MonthsTotal(docs, owner, y, n) == MonthsTotal(docs[..|docs| - 1], owner, y, n)
        + (if last.owner == owner && last.data.date.year == y && last.data.date.month0 < n then last.data.amount else 0.0)
  {
    if n > 0 {
      MonthsTotalStep(docs, owner, y, n - 1);
      InMonthBucket(docs[|docs| - 1].data, y, n - 1);
      SumMatchingLast(docs, owner, Month(YearMonthKey(y, n - 1)));
    }
  }

  /** Over documents whose keys agree with their dates, the annual total of
      a year is the sum of its twelve monthly totals. */
  lemma {:induction false} AnnualIsSumOfMonths(docs: seq<Doc<Entry>>, owner: int, y: nat)
    requires AllConsistent(docs)
    ensures Sum(Matching(docs, owner, Year(IntToString(y)))) == MonthsTotal(docs, owner, y, 12)
  {
    if docs != [] {
      var init, last := docs[..|docs| - 1], docs[|docs| - 1];
      ConsistentPrefix(docs);
      AnnualIsSumOfMonths(init, owner, y);
      MonthsTotalStep(docs, owner, y, 12);
      InOwnYearBucket(last.data, y);
      SumMatchingLast(docs, owner, Year(IntToString(y)));
    } else {
      MonthsTotalEmpty(owner, y, 12);
    }
  }

  lemma ConsistentPrefix(docs: seq<Doc<Entry>>)
    requires docs != [] && AllConsistent(docs)
    ensures AllConsistent(docs[..|docs| - 1])
  {
    var init := docs[..|docs| - 1];
    forall k | 0 <= k < |init| ensures Consistent(init[k].data) {
      assert init[k] == docs[k];
    }
  }

  /** For a year without a minus sign, a consistent document is in the
      year's bucket exactly when it is dated in that year. */
  lemma InOwnYearBucket(e: Entry, y: nat)
    requires Consistent(e)
    ensures InBucket(e.yearMonth, Year(IntToString(y))) <==> e.date.year == y
  {
    var ys := IntToString(y);
    assert forall i :: 0 <= i < |ys| ==> ys[i] != '-' by {
      assert AllDigits(ys);
    }
    InYearBucket(e, ys);
    IntToStringInjective(y, e.date.year);
  }
}
