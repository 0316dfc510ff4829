/** The debt controller over the debt collection. Create answers 400 for a
    validation failure; every other failure answers 500, a failed
    validation on update included. Lookups are by id and owner. */
module DebtController {
  import opened Common
  import opened Calendar
  import opened Collection
  import opened DebtModel

  class DebtStore {
    /** The collection's documents in stored order. */
    var docs: seq<Doc<Debt>>
    /** Where new ids come from: every id in use is below it. */
    var nextId: int

    ghost predicate Valid()
      reads this
    {
      IdsDistinct(docs) && IdsBelow(docs, nextId) && AllValidDebts(docs)
    }

    constructor ()
      ensures Valid() && docs == []
    {
      docs := [];
      nextId := 0;
    }

    /** createDebt: the body with the caller as owner is validated, then the
        hook, the debt being new, builds its installments from `now`. */
    method Create(caller: int, body: DebtFields, now: Date, fault: Option<Fault>) returns (r: Result<Doc<Debt>>)
      requires Valid() && ValidDate(now)
      modifies this
      ensures Valid() && nextId == if r.Ok? then old(nextId) + 1 else old(nextId)
      ensures NewDebt(body, now).None? ==> r == Err(Validation) && docs == old(docs)
      ensures NewDebt(body, now).Some? && fault.Some? ==> r == Err(Internal) && docs == old(docs)
      ensures NewDebt(body, now).Some? && fault.None? ==>
                r == Ok(Doc(old(nextId), caller, NewDebt(body, now).value)) && docs == old(docs) + [r.value]
      ensures forall o :: o != caller ==> Owned(docs, o) == Owned(old(docs), o)
    {
      var admitted := AdmitDebt(body.(userId := Some(caller)));
      if admitted.None? {
        return Err(Validation);
      }
      if fault.Some? {
        return Err(Internal);
      }
      var debt := admitted.value;
      var installments := GenerateInstallments(debt.totalAmount, debt.totalInstallments, now);
      ScheduleValid(debt.totalAmount, debt.totalInstallments, now);
      var d := Doc(nextId, caller, debt.(installments := installments));
      AppendFresh(docs, d, nextId);
      AllValidDebtsAppend(docs, d);
      docs := docs + [d];
      nextId := nextId + 1;
      r := Ok(d);
    }

    /** getAllDebts: exactly the caller's debts, in stored order. */
    function All(caller: int, fault: Option<Fault>): (r: Result<seq<Doc<Debt>>>)
      reads this
      ensures fault.Some? <==> r == Err(Internal)
      ensures r.Ok? ==> forall k :: 0 <= k < |r.value| ==> r.value[k] in docs && r.value[k].owner == caller
      ensures r.Ok? ==> forall k :: 0 <= k < |docs| && docs[k].owner == caller ==> docs[k] in r.value
      ensures fault.None? ==> r == Ok(Owned(docs, caller))
    {
      if fault.Some? then Err(Internal) else Ok(Owned(docs, caller))
    }

    /** getDebtById: the debt with this id if the caller owns it; another
        owner's debt is as absent as a missing one. */
    function Get(id: int, caller: int, fault: Option<Fault>): (r: Result<Doc<Debt>>)
      reads this
      ensures fault.Some? ==> r == Err(Internal)
      ensures r.Ok? ==> r.value in docs && r.value.id == id && r.value.owner == caller
      ensures r == Err(NotFound) <==>
                fault.None? && forall k :: 0 <= k < |docs| ==> !(docs[k].id == id && docs[k].owner == caller)
      ensures fault.None? && FindFirst(docs, id, Some(caller)).Some? ==>
                r == Ok(docs[FindFirst(docs, id, Some(caller)).value])
    {
      if fault.Some? then Err(Internal)
      else match FindFirst(docs, id, Some(caller))
        case None => Err(NotFound)
        case Some(i) => Ok(docs[i])
    }

    /** updateDebt: the caller's debt is loaded, the body's keys are
        assigned to it one by one and it is saved: validated, then given a
        new schedule from `now` when its total or its number of
        installments changed. */
    method Update(id: int, caller: int, body: DebtFields, now: Date, fault: Option<Fault>) returns (r: Result<Doc<Debt>>)
      requires Valid() && ValidDate(now)
      modifies this
      ensures Valid() && nextId == old(nextId)
      ensures fault.Some? ==> r == Err(Internal) && docs == old(docs)
      ensures fault.None? && FindFirst(old(docs), id, Some(caller)).None? ==> r == Err(NotFound) && docs == old(docs)
      ensures fault.None? && FindFirst(old(docs), id, Some(caller)).Some? ==>
                var i := FindFirst(old(docs), id, Some(caller)).value;
                if ApplyUpdate(old(docs)[i], body, now).None? then r == Err(Internal) && docs == old(docs)
                else r == Ok(ApplyUpdate(old(docs)[i], body, now).value) && docs == old(docs)[i := r.value]
      ensures forall o :: o != caller && body.userId != Some(o) ==> Owned(docs, o) == Owned(old(docs), o)
    {
      if fault.Some? {
        return Err(Internal);
      }
      var i := FindFirst(docs, id, Some(caller));
      if i.None? {
        return Err(NotFound);
      }
      var before := docs[i.value];
      var admitted := AdmitDebt(Assign(ToDebtFields(before.data, before.owner), body));
      if admitted.None? {
        return Err(Internal);
      }
      var debt := admitted.value;
      if Regenerates(false, before.data, debt) {
        var installments := GenerateInstallments(debt.totalAmount, debt.totalInstallments, now);
        debt := debt.(installments := installments);
      }
      var d := Doc(before.id, body.userId.GetOr(before.owner), debt);
      assert ApplyUpdate(before, body, now) == Some(d);
      ReplaceSameId(docs, i.value, d, nextId);
      AllValidDebtsReplace(docs, i.value, d);
      docs := docs[i.value := d];
      r := Ok(d);
    }

    /** deleteDebt: the caller's debt with this id leaves the collection;
        nothing else changes. */
    method Delete(id: int, caller: int, fault: Option<Fault>) returns (r: Result<Doc<Debt>>)
      requires Valid()
      modifies this
      ensures Valid() && nextId == old(nextId)
      ensures fault.Some? ==> r == Err(Internal) && docs == old(docs)
      ensures fault.None? && FindFirst(old(docs), id, Some(caller)).None? ==> r == Err(NotFound) && docs == old(docs)
      ensures fault.None? && FindFirst(old(docs), id, Some(caller)).Some? ==>
                var i := FindFirst(old(docs), id, Some(caller)).value;
                r == Ok(old(docs)[i]) && docs == RemoveAt(old(docs), i)
      ensures r.Ok? ==> forall k :: 0 <= k < |docs| ==> docs[k].id != id
      ensures forall o :: o != caller ==> Owned(docs, o) == Owned(old(docs), o)
    {
      if fault.Some? {
        return Err(Internal);
      }
      var i := FindFirst(docs, id, Some(caller));
      if i.None? {
        return Err(NotFound);
      }
      RemoveAtForgetsId(docs, i.value);
      AllValidDebtsRemove(docs, i.value);
      r := Ok(docs[i.value]);
      docs := RemoveAt(docs, i.value);
    }
  }
}
