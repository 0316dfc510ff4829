/** The expense controller over the expense collection. Every failure,
    validation included, answers 500; a lookup that finds no document with
    the id and the caller as owner answers 404. */
module ExpenseController {
  import opened Common
  import opened Collection
  import opened EntrySchema

  class ExpenseStore {
    /** The collection's documents in stored order. */
    var docs: seq<Doc<Entry>>
    /** Where new ids come from: every id in use is below it. */
    var nextId: int

    ghost predicate Valid()
      reads this
    {
      IdsDistinct(docs) && IdsBelow(docs, nextId) && AllValid(ExpenseSchema, docs)
    }

    constructor ()
      ensures Valid() && docs == []
    {
      docs := [];
      nextId := 0;
    }

    /** createExpense: the body's fields with the date, the caller as owner
        and the key derived from the date; appended under a fresh id. */
    method Create(caller: int, body: Fields, fault: Option<Fault>) returns (r: Result<Doc<Entry>>)
      requires Valid()
      modifies this
      ensures Valid() && nextId == if r.Ok? then old(nextId) + 1 else old(nextId)
      ensures var e := Admit(ExpenseSchema, Stamped(body, caller));
        if e.None? || fault.Some? then r == Err(Internal) && docs == old(docs)
        else r == Ok(Doc(old(nextId), caller, e.value)) && docs == old(docs) + [r.value]
      ensures r.Ok? ==> Consistent(r.value.data)
      ensures forall o :: o != caller ==> Owned(docs, o) == Owned(old(docs), o)
    {
      var e := Admit(ExpenseSchema, Stamped(body, caller));
      StampedConsistent(ExpenseSchema, body, caller, None, None);
      if e.None? || fault.Some? {
        return Err(Internal);
      }
      var d := Doc(nextId, caller, e.value);
      AppendFresh(docs, d, nextId);
      AllValidAppend(ExpenseSchema, docs, d);
      docs := docs + [d];
      nextId := nextId + 1;
      r := Ok(d);
    }

    /** getAllExpense: exactly the caller's documents, in stored order. */
    function All(caller: int, fault: Option<Fault>): (r: Result<seq<Doc<Entry>>>)
      reads this
      ensures fault.Some? <==> r == Err(Internal)
      ensures r.Ok? ==> forall k :: 0 <= k < |r.value| ==> r.value[k] in docs && r.value[k].owner == caller
      ensures r.Ok? ==> forall k :: 0 <= k < |docs| && docs[k].owner == caller ==> docs[k] in r.value
      ensures fault.None? ==> r == Ok(Owned(docs, caller))
    {
      if fault.Some? then Err(Internal) else Ok(Owned(docs, caller))
    }

    /** getExpense: the document with this id if the caller owns it; a
        document of another owner is as absent as a missing one. */
    function Get(id: int, caller: int, fault: Option<Fault>): (r: Result<Doc<Entry>>)
      reads this
      ensures fault.Some? ==> r == Err(Internal)
      ensures r.Ok? ==> r.value in docs && r.value.id == id && r.value.owner == caller
      ensures r == Err(NotFound) <==>
                fault.None? && forall k :: 0 <= k < |docs| ==> !(docs[k].id == id && docs[k].owner == caller)
      ensures fault.None? && FindFirst(docs, id, Some(caller)).Some? ==>
                r == Ok(docs[FindFirst(docs, id, Some(caller)).value])
    {
      if fault.Some? then Err(Internal)
      else match FindFirst(docs, id, Some(caller))
        case None => Err(NotFound)
        case Some(i) => Ok(docs[i])
    }

    /** updateExpense: the caller's document is replaced wholesale by the
        body, with the date, the caller as owner and the key derived again. */
    method Replace(id: int, caller: int, body: Fields, fault: Option<Fault>) returns (r: Result<Doc<Entry>>)
      requires Valid()
      modifies this
      ensures Valid() && nextId == old(nextId)
      ensures var e := Admit(ExpenseSchema, Stamped(body, caller));
              var i := FindFirst(old(docs), id, Some(caller));
        if e.None? || fault.Some? then r == Err(Internal) && docs == old(docs)
        else if i.None? then r == Err(NotFound) && docs == old(docs)
        else r == Ok(Doc(id, caller, e.value)) && docs == old(docs)[i.value := r.value]
      ensures r.Ok? ==> Consistent(r.value.data)
      ensures forall o :: o != caller ==> Owned(docs, o) == Owned(old(docs), o)
    {
      var e := Admit(ExpenseSchema, Stamped(body, caller));
      StampedConsistent(ExpenseSchema, body, caller, None, None);
      if e.None? || fault.Some? {
        return Err(Internal);
      }
      var i := FindFirst(docs, id, Some(caller));
      if i.None? {
        return Err(NotFound);
      }
      var d := Doc(id, caller, e.value);
      ReplaceSameId(docs, i.value, d, nextId);
      AllValidReplace(ExpenseSchema, docs, i.value, d);
      docs := docs[i.value := d];
      r := Ok(d);
    }

    /** patchExpense: the patch is merged into the caller's document; the
        key is not derived again from a changed date, and a `userId` in the
        patch hands the document to that owner. */
    method Patch(id: int, caller: int, p: Fields, fault: Option<Fault>) returns (r: Result<Doc<Entry>>)
      requires Valid()
      modifies this
      ensures Valid() && nextId == old(nextId)
      ensures var i := FindFirst(old(docs), id, Some(caller));
        if !PatchValid(ExpenseSchema, p) || fault.Some? then r == Err(Internal) && docs == old(docs)
        else if i.None? then r == Err(NotFound) && docs == old(docs)
        else PatchDoc(ExpenseSchema, old(docs)[i.value], p).Some?
             && r == Ok(PatchDoc(ExpenseSchema, old(docs)[i.value], p).value)
             && docs == old(docs)[i.value := r.value]
      ensures forall o :: o != caller && p.userId != Some(o) ==> Owned(docs, o) == Owned(old(docs), o)
    {
      if !PatchValid(ExpenseSchema, p) || fault.Some? {
        return Err(Internal);
      }
      var i := FindFirst(docs, id, Some(caller));
      if i.None? {
        return Err(NotFound);
      }
      PatchValidIffMergeValid(ExpenseSchema, docs[i.value], p);
      var d := PatchDoc(ExpenseSchema, docs[i.value], p).value;
      ReplaceSameId(docs, i.value, d, nextId);
      AllValidReplace(ExpenseSchema, docs, i.value, d);
      docs := docs[i.value := d];
      r := Ok(d);
    }

    /** deleteExpense: the caller's document with this id leaves the
        collection; nothing else changes. */
    method Delete(id: int, caller: int, fault: Option<Fault>) returns (r: Result<Doc<Entry>>)
      requires Valid()
      modifies this
      ensures Valid() && nextId == old(nextId)
      ensures var i := FindFirst(old(docs), id, Some(caller));
        if fault.Some? then r == Err(Internal) && docs == old(docs)
        else if i.None? then r == Err(NotFound) && docs == old(docs)
        else r == Ok(old(docs)[i.value]) && docs == RemoveAt(old(docs), i.value)
      ensures r.Ok? ==> forall k :: 0 <= k < |docs| ==> docs[k].id != id
      ensures forall o :: o != caller ==> Owned(docs, o) == Owned(old(docs), o)
    {
      if fault.Some? {
        return Err(Internal);
      }
      var i := FindFirst(docs, id, Some(caller));
      if i.None? {
        return Err(NotFound);
      }
      RemoveAtForgetsId(docs, i.value);
      AllValidRemove(ExpenseSchema, docs, i.value);
      r := Ok(docs[i.value]);
      docs := RemoveAt(docs, i.value);
    }
  }
}
