/** The Debt model: the schema of a debt and its installments, and the
    pre-save hook that splits the total into equal monthly installments
    whenever the debt is new or its total or its number of installments
    changed. */
module DebtModel {
  import opened Common
  import opened Calendar
  import opened Text
  import opened Collection

  /** One installment subdocument. `isPaid` defaults to false and
      `paymentDate` is optional. */
  datatype Installment = Installment(amount: real, dueDate: Date, isPaid: bool, paymentDate: Option<Date>)

  /** A stored debt; its owner is the document's owner. A number of
      installments is a whole number here. */
  datatype Debt = Debt(description: string, totalAmount: real, category: string,
                       totalInstallments: int, currentInstallment: int,
                       installments: seq<Installment>)

  /** The keys a request body supplies; None is an absent key. */
  datatype DebtFields = DebtFields(description: Option<string>, totalAmount: Option<real>, category: Option<string>,
                                   totalInstallments: Option<int>, currentInstallment: Option<int>,
                                   installments: Option<seq<Installment>>, userId: Option<int>)

  predicate ValidInstallment(x: Installment) {
    ValidDate(x.dueDate) && (x.paymentDate.Some? ==> ValidDate(x.paymentDate.value))
  }

  predicate AllValidInstallments(xs: seq<Installment>) {
    forall k :: 0 <= k < |xs| ==> ValidInstallment(xs[k])
  }

  /** What every stored debt satisfies: a trimmed, non-empty description, a
      non-empty category and installments with real dates. The amounts and
      the counts carry no constraint. */
  predicate ValidDebt(d: Debt) {
    && Trimmed(d.description) && d.description != ""
    && d.category != ""
    && AllValidInstallments(d.installments)
  }

  predicate AllValidDebts(docs: seq<Doc<Debt>>) {
    forall k :: 0 <= k < |docs| ==> ValidDebt(docs[k].data)
  }

  lemma AllValidDebtsAppend(docs: seq<Doc<Debt>>, d: Doc<Debt>)
    requires AllValidDebts(docs) && ValidDebt(d.data)
    ensures AllValidDebts(docs + [d])
  {
    forall k | 0 <= k < |docs| + 1 ensures ValidDebt((docs + [d])[k].data) {
      if k < |docs| {
        assert (docs + [d])[k] == docs[k];
      }
    }
  }

  lemma AllValidDebtsReplace(docs: seq<Doc<Debt>>, i: nat, d: Doc<Debt>)
    requires i < |docs| && AllValidDebts(docs) && ValidDebt(d.data)
    ensures AllValidDebts(docs[i := d])
  {
  }

  lemma AllValidDebtsRemove(docs: seq<Doc<Debt>>, i: nat)
    requires i < |docs| && AllValidDebts(docs)
    ensures AllValidDebts(RemoveAt(docs, i))
  {
    var r := RemoveAt(docs, i);
    forall k | 0 <= k < |r| ensures ValidDebt(r[k].data) {
      assert r[k] == docs[if k < i then k else k + 1];
    }
  }

  /** Casting and validating a candidate debt, as `save` does before its
      hooks run: description (through the trim setter), total amount,
      category and number of installments are required, the current
      installment defaults to 1, the installments to none, and every
      installment given must have real dates. None is a ValidationError. */
  function AdmitDebt(f: DebtFields): (r: Option<Debt>)
    ensures r.Some? <==> && f.description.Some? && Trim(f.description.value) != ""
                         && f.totalAmount.Some?
                         && f.category.Some? && f.category.value != ""
                         && f.totalInstallments.Some?
                         && (f.installments.Some? ==> AllValidInstallments(f.installments.value))
    ensures r.Some? ==> ValidDebt(r.value)
    ensures r.Some? ==> && r.value.description == Trim(f.description.value)
                        && r.value.totalAmount == f.totalAmount.value
                        && r.value.category == f.category.value
                        && r.value.totalInstallments == f.totalInstallments.value
                        && r.value.currentInstallment == f.currentInstallment.GetOr(1)
                        && r.value.installments == f.installments.GetOr([])
  {
    if && f.description.Some? && Trim(f.description.value) != ""
       && f.totalAmount.Some?
       && f.category.Some? && f.category.value != ""
       && f.totalInstallments.Some?
       && (f.installments.Some? ==> AllValidInstallments(f.installments.value))
    then
      Some(Debt(Trim(f.description.value), f.totalAmount.value, f.category.value, f.totalInstallments.value,
                f.currentInstallment.GetOr(1), f.installments.GetOr([])))
    else None
  }

  /** The keys of a stored debt, every one present. */
  function ToDebtFields(d: Debt, owner: int): DebtFields {
    DebtFields(Some(d.description), Some(d.totalAmount), Some(d.category), Some(d.totalInstallments),
               Some(d.currentInstallment), Some(d.installments), Some(owner))
  }

  /** `debt[key] = body[key]` for every key of the body. */
  function Assign(base: DebtFields, body: DebtFields): DebtFields {
    DebtFields(if body.description.Some? then body.description else base.description,
               if body.totalAmount.Some? then body.totalAmount else base.totalAmount,
               if body.category.Some? then body.category else base.category,
               if body.totalInstallments.Some? then body.totalInstallments else base.totalInstallments,
               if body.currentInstallment.Some? then body.currentInstallment else base.currentInstallment,
               if body.installments.Some? then body.installments else base.installments,
               if body.userId.Some? then body.userId else base.userId)
  }

  /** Installment `i` of a schedule that starts on `start`:
      `new Date(start year, start month + i, start day)`. */
  function DueDate(start: Date, i: int): (d: Date)
    requires ValidDate(start)
    ensures ValidDate(d)
  {
    MakeDate(start.year, start.month0 + i, start.day)
  }

  /** What the hook builds: `n` unpaid installments of `total / n` each,
      due month after month from `start`; none when `n` is not positive. */
  function Schedule(total: real, n: int, start: Date): seq<Installment>
    requires ValidDate(start)
  {
    if n <= 0 then []
    else seq(n, i requires 0 <= i < n => Installment(total / n as real, DueDate(start, i), false, None))
  }

  /** The hook's loop: `installmentAmount` is computed once, then one
      installment per month is pushed. (With no installments to build the
      quotient is never used; JavaScript would have produced Infinity or
      NaN for it.) */
  method GenerateInstallments(totalAmount: real, totalInstallments: int, start: Date) returns (installments: seq<Installment>)
    requires ValidDate(start)
    ensures installments == Schedule(totalAmount, totalInstallments, start)
  {
    var installmentAmount := if totalInstallments == 0 then 0.0 else totalAmount / totalInstallments as real;
    installments := [];
    var i := 0;
    while i < totalInstallments
      invariant 0 <= i <= (if totalInstallments > 0 then totalInstallments else 0)
      invariant |installments| == i
      invariant forall k :: 0 <= k < i ==>
                  installments[k] == Installment(installmentAmount, DueDate(start, k), false, None)
    {
      installments := installments + [Installment(installmentAmount, DueDate(start, i), false, None)];
      i := i + 1;
    }
    if totalInstallments > 0 {
      var s := Schedule(totalAmount, totalInstallments, start);
      assert forall k :: 0 <= k < |s| ==> installments[k] == s[k];
    }
  }

  /** The hook's condition: the debt is new, or saving changes its total or
      its number of installments. */
  predicate Regenerates(isNew: bool, before: Debt, after: Debt) {
    isNew || after.totalAmount != before.totalAmount || after.totalInstallments != before.totalInstallments
  }

  /** createDebt's save: the body is validated, then the hook replaces
      whatever installments the body gave by a fresh schedule from `now`. */
  function NewDebt(body: DebtFields, now: Date): (r: Option<Debt>)
    requires ValidDate(now)
    ensures AdmitDebt(body).None? <==> r.None?
    ensures r.Some? ==> r.value == AdmitDebt(body).value.(installments := Schedule(r.value.totalAmount, r.value.totalInstallments, now))
    ensures r.Some? ==> ValidDebt(r.value)
  {
    match AdmitDebt(body)
    case None => None
    case Some(d) =>
      ScheduleValid(d.totalAmount, d.totalInstallments, now);
      Some(d.(installments := Schedule(d.totalAmount, d.totalInstallments, now)))
  }

  /** updateDebt's effect on a loaded debt: the body's keys are assigned,
      the result is validated, then the hook regenerates the installments
      from `now` exactly when the total or the number of installments
      changed. A `userId` key hands the debt to that owner. */
  function ApplyUpdate(before: Doc<Debt>, body: DebtFields, now: Date): (r: Option<Doc<Debt>>)
    requires ValidDate(now)
    ensures r.Some? ==> r.value.id == before.id && r.value.owner == body.userId.GetOr(before.owner)
    ensures r.Some? ==> ValidDebt(r.value.data)
  {
    match AdmitDebt(Assign(ToDebtFields(before.data, before.owner), body))
    case None => None
    case Some(d) =>
      ScheduleValid(d.totalAmount, d.totalInstallments, now);
      var installments := if Regenerates(false, before.data, d) then Schedule(d.totalAmount, d.totalInstallments, now)
                          else d.installments;
      Some(Doc(before.id, body.userId.GetOr(before.owner), d.(installments := installments)))
  }

  // Properties of the schedule

  /** Generated installments have real dates. */
  lemma ScheduleValid(total: real, n: int, start: Date)
    requires ValidDate(start)
    ensures AllValidInstallments(Schedule(total, n, start))
  {
  }

  /** The schedule has as many installments as asked for, each of the same
      amount `total / n`, unpaid and without a payment date, the `i`-th due
      on the date built from month `start + i`. */
  lemma ScheduleShape(total: real, n: int, start: Date)
    requires ValidDate(start)
    ensures |Schedule(total, n, start)| == if n <= 0 then 0 else n
    ensures forall i :: 0 <= i < |Schedule(total, n, start)| ==>
              var x := Schedule(total, n, start)[i];
              && x.amount == total / n as real
              && x.dueDate == MakeDate(start.year, start.month0 + i, start.day)
              && !x.isPaid && x.paymentDate.None?
  {
  }

  function SumAmounts(xs: seq<Installment>): real {
    if xs == [] then 0.0 else xs[0].amount + SumAmounts(xs[1..])
  }

  lemma {:induction false} SumEqualAmounts(xs: seq<Installment>, a: real)
    requires forall k :: 0 <= k < |xs| ==> xs[k].amount == a
    ensures SumAmounts(xs) == |xs| as real * a
  {
    if xs != [] {
      SumEqualAmounts(xs[1..], a);
    }
  }

  /** With at least one installment, the installments add up to the total. */
  lemma ScheduleConservesTotal(total: real, n: int, start: Date)
    requires ValidDate(start) && n >= 1
    ensures SumAmounts(Schedule(total, n, start)) == total
  {
    var s := Schedule(total, n, start);
    var a := total / n as real;
    ScheduleShape(total, n, start);
    SumEqualAmounts(s, a);
    SplitRejoins(total, n as real);
  }

  lemma SplitRejoins(total: real, n: real)
    requires n != 0.0
    ensures n * (total / n) == total
  {
  }

  /** The `i`-th installment falls in month `start + i` on the start day
      exactly when that month has the day; otherwise it rolls into the next
      month, on the start day less the month's length. From a start day up
      to 28 it is always month `start + i`. */
  lemma DueDateMonth(start: Date, i: int)
    requires ValidDate(start)
    ensures var len := DaysInMonth(start.year + (start.month0 + i) / 12, (start.month0 + i) % 12);
      && (start.day <= len ==> MonthIndex(DueDate(start, i)) == MonthIndex(start) + i
                               && DueDate(start, i).day == start.day)
      && (start.day > len ==> MonthIndex(DueDate(start, i)) == MonthIndex(start) + i + 1
                              && DueDate(start, i).day == start.day - len)
  {
  }

  /** Due dates strictly increase along the schedule. */
  lemma DueDatesIncrease(start: Date, i: int, j: int)
    requires ValidDate(start) && i < j
    ensures Before(DueDate(start, i), DueDate(start, j))
  {
    DueDateMonth(start, i);
    DueDateMonth(start, j);
  }

  // Properties of the update

  /** The keys the body names are set, the others keep their stored values;
      the installments are the body's or the stored ones unless the hook
      regenerated them. */
  lemma UpdateAssigns(before: Doc<Debt>, body: DebtFields, now: Date)
    requires ValidDate(now) && ValidDebt(before.data)
    requires ApplyUpdate(before, body, now).Some?
    ensures var d := ApplyUpdate(before, body, now).value.data;
      && d.description == (if body.description.Some? then Trim(body.description.value) else before.data.description)
      && d.totalAmount == body.totalAmount.GetOr(before.data.totalAmount)
      && d.category == body.category.GetOr(before.data.category)
      && d.totalInstallments == body.totalInstallments.GetOr(before.data.totalInstallments)
      && d.currentInstallment == body.currentInstallment.GetOr(before.data.currentInstallment)
  {
    TrimFixedIffTrimmed(before.data.description);
  }

  /** When neither the total nor the number of installments changes, the
      installments are exactly the body's, or the stored ones when the body
      has none: the schedule is untouched. */
  lemma UpdateKeepsInstallments(before: Doc<Debt>, body: DebtFields, now: Date)
    requires ValidDate(now) && ValidDebt(before.data)
    requires ApplyUpdate(before, body, now).Some?
    requires body.totalAmount.GetOr(before.data.totalAmount) == before.data.totalAmount
    requires body.totalInstallments.GetOr(before.data.totalInstallments) == before.data.totalInstallments
    ensures ApplyUpdate(before, body, now).value.data.installments == body.installments.GetOr(before.data.installments)
  {
  }

  /** When the total or the number of installments changes, the installments
      are a fresh schedule of the new values from `now`, whatever the body
      said about them. */
  lemma UpdateRegenerates(before: Doc<Debt>, body: DebtFields, now: Date)
    requires ValidDate(now) && ValidDebt(before.data)
    requires ApplyUpdate(before, body, now).Some?
    requires || body.totalAmount.GetOr(before.data.totalAmount) != before.data.totalAmount
             || body.totalInstallments.GetOr(before.data.totalInstallments) != before.data.totalInstallments
    ensures var d := ApplyUpdate(before, body, now).value.data;
      d.installments == Schedule(d.totalAmount, d.totalInstallments, now)
  {
  }

  /** An update is rejected exactly when a key it names breaks the schema. */
  lemma UpdateRejectedIff(before: Doc<Debt>, body: DebtFields, now: Date)
    requires ValidDate(now) && ValidDebt(before.data)
    ensures ApplyUpdate(before, body, now).None? <==>
              || (body.description.Some? && Trim(body.description.value) == "")
              || (body.category.Some? && body.category.value == "")
              || (body.installments.Some? && !AllValidInstallments(body.installments.value))
  {
    var f := Assign(ToDebtFields(before.data, before.owner), body);
    TrimFixedIffTrimmed(before.data.description);
    assert body.description.None? ==> Trim(f.description.value) != "";
    assert body.category.None? ==> f.category.value != "";
    assert f.installments.value == body.installments.GetOr(before.data.installments);
  }

  /** An empty body saves the debt as it was. */
  lemma EmptyUpdateNoChange(before: Doc<Debt>, now: Date)
    requires ValidDate(now) && ValidDebt(before.data)
    ensures ApplyUpdate(before, DebtFields(None, None, None, None, None, None, None), now) == Some(before)
  {
    TrimFixedIffTrimmed(before.data.description);
  }
}
