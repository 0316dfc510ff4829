/** The Expense and Revenue schemas: the fields a stored document carries,
    how a candidate document is cast and validated, and the merge that a
    partial update performs. The two schemas differ only in Expense's
    `type` field. */
module EntrySchema {
  import opened Common
  import opened Calendar
  import opened Text
  import opened BucketKey
  import opened Collection

  datatype Schema = ExpenseSchema | RevenueSchema

  /** A stored expense or revenue. `kind` is the expense's `type` ("fixed" or
      "variable"); a revenue has none. */
  datatype Entry = Entry(description: string, amount: real, category: string,
                         date: Date, yearMonth: string, kind: Option<string>)

  /** The fields a request body or a patch supplies; None is an absent key. */
  datatype Fields = Fields(description: Option<string>, amount: Option<real>, category: Option<string>,
                           date: Option<Date>, yearMonth: Option<string>, kind: Option<string>,
                           userId: Option<int>)

  /** The `type` enum of the Expense schema. */
  predicate KindAllowed(kind: string) {
    kind == "fixed" || kind == "variable"
  }

  /** What every stored document of `schema` satisfies: required strings are
      non-empty, the description is trimmed, the date is a real date, an
      expense's type is in the enum and a revenue has no type. The amount
      carries no constraint. */
  predicate ValidEntry(schema: Schema, e: Entry) {
    && Trimmed(e.description) && e.description != ""
    && e.category != ""
    && ValidDate(e.date)
    && e.yearMonth != ""
    && (schema == ExpenseSchema ==> e.kind.Some? && KindAllowed(e.kind.value))
    && (schema == RevenueSchema ==> e.kind.None?)
  }

  /** Every document of a collection satisfies its schema. */
  predicate AllValid(schema: Schema, docs: seq<Doc<Entry>>) {
    forall k :: 0 <= k < |docs| ==> ValidEntry(schema, docs[k].data)
  }

  lemma AllValidAppend(schema: Schema, docs: seq<Doc<Entry>>, d: Doc<Entry>)
    requires AllValid(schema, docs) && ValidEntry(schema, d.data)
    ensures AllValid(schema, docs + [d])
  {
    forall k | 0 <= k < |docs| + 1 ensures ValidEntry(schema, (docs + [d])[k].data) {
      if k < |docs| {
        assert (docs + [d])[k] == docs[k];
      }
    }
  }

  lemma AllValidReplace(schema: Schema, docs: seq<Doc<Entry>>, i: nat, d: Doc<Entry>)
    requires i < |docs| && AllValid(schema, docs) && ValidEntry(schema, d.data)
    ensures AllValid(schema, docs[i := d])
  {
  }

  lemma AllValidRemove(schema: Schema, docs: seq<Doc<Entry>>, i: nat)
    requires i < |docs| && AllValid(schema, docs)
    ensures AllValid(schema, RemoveAt(docs, i))
  {
    var r := RemoveAt(docs, i);
    forall k | 0 <= k < |r| ensures ValidEntry(schema, r[k].data) {
      assert r[k] == docs[if k < i then k else k + 1];
    }
  }

  /** A required String path: present and, after its setters, non-empty. */
  predicate RequiredText(s: Option<string>) {
    s.Some? && s.value != ""
  }

  /** Casting and validating a candidate document, as `save` (and the
      validators run on a replacement) do: `description` goes through the
      trim setter, every required path must be present, the date must be a
      real date and an expense's type must be in the enum. A revenue drops
      any `type` key, since its schema has no such path. None is a
      ValidationError. */
  function Admit(schema: Schema, f: Fields): (r: Option<Entry>)
    ensures r.Some? <==> && f.description.Some? && Trim(f.description.value) != ""
                         && f.amount.Some?
                         && RequiredText(f.category)
                         && f.date.Some? && ValidDate(f.date.value)
                         && RequiredText(f.yearMonth)
                         && (schema == ExpenseSchema ==> f.kind.Some? && KindAllowed(f.kind.value))
    ensures r.Some? ==> ValidEntry(schema, r.value)
    ensures r.Some? ==> && r.value.description == Trim(f.description.value)
                        && r.value.amount == f.amount.value
                        && r.value.category == f.category.value
                        && r.value.date == f.date.value
                        && r.value.yearMonth == f.yearMonth.value
                        && (schema == ExpenseSchema ==> r.value.kind == f.kind)
  {
    if && f.description.Some? && Trim(f.description.value) != ""
       && f.amount.Some?
       && RequiredText(f.category)
       && f.date.Some? && ValidDate(f.date.value)
       && RequiredText(f.yearMonth)
       && (schema == ExpenseSchema ==> f.kind.Some? && KindAllowed(f.kind.value))
    then
      Some(Entry(Trim(f.description.value), f.amount.value, f.category.value, f.date.value,
                 f.yearMonth.value, if schema == ExpenseSchema then f.kind else None))
    else None
  }

  /** The fields of a stored document, every key present. */
  function ToFields(e: Entry, owner: int): Fields {
    Fields(Some(e.description), Some(e.amount), Some(e.category), Some(e.date),
           Some(e.yearMonth), e.kind, Some(owner))
  }

  /** Keys present in `patch` override those of `base`. */
  function Overlay(base: Fields, patch: Fields): Fields {
    Fields(if patch.description.Some? then patch.description else base.description,
           if patch.amount.Some? then patch.amount else base.amount,
           if patch.category.Some? then patch.category else base.category,
           if patch.date.Some? then patch.date else base.date,
           if patch.yearMonth.Some? then patch.yearMonth else base.yearMonth,
           if patch.kind.Some? then patch.kind else base.kind,
           if patch.userId.Some? then patch.userId else base.userId)
  }

  /** What create and full replace hand to the model: the body's keys, with
      `yearMonth` derived from the body's date and `userId` set to the
      caller, whatever the body said about either. */
  function Stamped(body: Fields, caller: int): Fields {
    body.(yearMonth := Some(DateKey(body.date)), userId := Some(caller))
  }

  /** The bucket key of a stored document agrees with its date. */
  predicate Consistent(e: Entry) {
    ValidDate(e.date) && e.yearMonth == YearMonthKey(e.date.year, e.date.month0)
  }

  /** A partial update (`findOneAndUpdate` with validators): the patch's keys
      are merged over the stored document and the merge is validated; a
      `userId` key moves the document to that owner. The date is taken as
      given; `yearMonth` is not derived again. */
  function PatchDoc(schema: Schema, d: Doc<Entry>, p: Fields): (r: Option<Doc<Entry>>)
    ensures r.Some? ==> r.value.id == d.id && ValidEntry(schema, r.value.data)
    ensures r.Some? ==> r.value.owner == p.userId.GetOr(d.owner)
  {
    match Admit(schema, Overlay(ToFields(d.data, d.owner), p))
    case None => None
    case Some(e) => Some(Doc(d.id, p.userId.GetOr(d.owner), e))
  }

  /** The update validators: each key the patch names is checked on its own,
      as the schema would check it (a revenue patch's `type` is dropped). */
  predicate PatchValid(schema: Schema, p: Fields) {
    && (p.description.Some? ==> Trim(p.description.value) != "")
    && (p.category.Some? ==> p.category.value != "")
    && (p.date.Some? ==> ValidDate(p.date.value))
    && (p.yearMonth.Some? ==> p.yearMonth.value != "")
    && (schema == ExpenseSchema && p.kind.Some? ==> KindAllowed(p.kind.value))
  }

  /** Checking only the patched keys is as strong as validating the whole
      merged document, since the stored document was valid: the patch is
      rejected by the update validators exactly when the merge is invalid. */
  lemma PatchValidIffMergeValid(schema: Schema, d: Doc<Entry>, p: Fields)
    requires ValidEntry(schema, d.data)
    ensures PatchValid(schema, p) <==> PatchDoc(schema, d, p).Some?
  {
  }

  /** Every valid document passes validation unchanged: Admit accepts
      exactly the valid entries, and ToFields is its right inverse. */
  lemma AdmitToFields(schema: Schema, e: Entry, owner: int)
    requires ValidEntry(schema, e)
    ensures Admit(schema, ToFields(e, owner)) == Some(e)
  {
    TrimFixedIffTrimmed(e.description);
  }

  /** The amount is unconstrained: any value passes where another did. */
  lemma AmountUnconstrained(schema: Schema, f: Fields, a: real)
    requires f.amount.Some?
    ensures Admit(schema, f.(amount := Some(a))).Some? <==> Admit(schema, f).Some?
  {
  }

  /** A revenue has no `type`: the key is ignored, whatever its value. */
  lemma RevenueIgnoresKind(f: Fields, k: Option<string>)
    ensures Admit(RevenueSchema, f.(kind := k)) == Admit(RevenueSchema, f)
  {
  }

  /** Create and full replace store a bucket key that agrees with the date,
      and what the body said about `yearMonth` or `userId` has no effect. */
  lemma StampedConsistent(schema: Schema, body: Fields, caller: int, ym: Option<string>, u: Option<int>)
    ensures Admit(schema, Stamped(body, caller)).Some? ==> Consistent(Admit(schema, Stamped(body, caller)).value)
    ensures Stamped(body.(yearMonth := ym, userId := u), caller) == Stamped(body, caller)
  {
  }

  /** A patch keeps every key it does not mention and sets every key it does
      (the description trimmed). */
  lemma PatchMerges(schema: Schema, d: Doc<Entry>, p: Fields)
    requires ValidEntry(schema, d.data)
    requires PatchDoc(schema, d, p).Some?
    ensures var e := PatchDoc(schema, d, p).value.data;
      && e.description == (if p.description.Some? then Trim(p.description.value) else d.data.description)
      && e.amount == p.amount.GetOr(d.data.amount)
      && e.category == p.category.GetOr(d.data.category)
      && e.date == p.date.GetOr(d.data.date)
      && e.yearMonth == p.yearMonth.GetOr(d.data.yearMonth)
      && (schema == ExpenseSchema ==> e.kind == (if p.kind.Some? then p.kind else d.data.kind))
  {
  }

  /** The partial update's known inconsistency: a patch that moves the date to
      another month without naming `yearMonth` leaves the document in the
      old bucket, so its key no longer agrees with its date. */
  lemma PatchDateDesyncs(schema: Schema, d: Doc<Entry>, p: Fields)
    requires ValidEntry(schema, d.data) && Consistent(d.data)
    requires p.yearMonth.None? && p.date.Some?
    requires (p.date.value.year, p.date.value.month0) != (d.data.date.year, d.data.date.month0)
    requires PatchDoc(schema, d, p).Some?
    ensures !Consistent(PatchDoc(schema, d, p).value.data)
  {
    var e := PatchDoc(schema, d, p).value.data;
    PatchMerges(schema, d, p);
    KeyInjective(e.date.year, e.date.month0, d.data.date.year, d.data.date.month0);
  }

  /** The partial update with the bucket key derived again from the merged
      date, as create and full replace derive it; a `yearMonth` in the patch
      is not taken. The stored key then always agrees with the date. */
  function PatchDocRekeyed(schema: Schema, d: Doc<Entry>, p: Fields): (r: Option<Doc<Entry>>)
    ensures r.Some? ==> r.value.id == d.id && ValidEntry(schema, r.value.data)
    ensures r.Some? ==> Consistent(r.value.data) && r.value.data.date == p.date.GetOr(d.data.date)
  {
    PatchDoc(schema, d, p.(yearMonth := Some(DateKey(Some(p.date.GetOr(d.data.date))))))
  }

  /** A patch that names neither the date nor the key is unaffected by the
      correction: on a document whose key agrees with its date both updates
      give the same result. */
  lemma RekeyedAgreesWithoutDate(schema: Schema, d: Doc<Entry>, p: Fields)
    requires ValidEntry(schema, d.data) && Consistent(d.data)
    requires p.date.None? && p.yearMonth.None?
    ensures PatchDocRekeyed(schema, d, p) == PatchDoc(schema, d, p)
  {
    assert DateKey(Some(d.data.date)) == d.data.yearMonth;
    assert Overlay(ToFields(d.data, d.owner), p.(yearMonth := Some(d.data.yearMonth)))
        == Overlay(ToFields(d.data, d.owner), p);
  }
}
