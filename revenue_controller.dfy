/** The revenue controller over the revenue collection. Unlike the expense
    controller it answers 400 for a validation failure on create and full
    replace, answers 404 for an id that cannot be cast on full replace, and
    looks a revenue up by id alone. */
module RevenueController {
  import opened Common
  import opened Collection
  import opened EntrySchema

  class RevenueStore {
    /** The collection's documents in stored order. */
    var docs: seq<Doc<Entry>>
    /** Where new ids come from: every id in use is below it. */
    var nextId: int

    ghost predicate Valid()
      reads this
    {
      IdsDistinct(docs) && IdsBelow(docs, nextId) && AllValid(RevenueSchema, docs)
    }

    constructor ()
      ensures Valid() && docs == []
    {
      docs := [];
      nextId := 0;
    }

    /** createRevenue: the body's fields with the date, the caller as owner
        and the key derived from the date; appended under a fresh id. A
        validation failure is a 400, any other failure a 500. */
    method Create(caller: int, body: Fields, fault: Option<Fault>) returns (r: Result<Doc<Entry>>)
      requires Valid()
      modifies this
      ensures Valid() && nextId == if r.Ok? then old(nextId) + 1 else old(nextId)
      ensures Admit(RevenueSchema, Stamped(body, caller)).None? ==> r == Err(Validation) && docs == old(docs)
      ensures Admit(RevenueSchema, Stamped(body, caller)).Some? && fault.Some? ==>
                r == Err(Internal) && docs == old(docs)
      ensures Admit(RevenueSchema, Stamped(body, caller)).Some? && fault.None? ==>
                r == Ok(Doc(old(nextId), caller, Admit(RevenueSchema, Stamped(body, caller)).value))
                && docs == old(docs) + [r.value]
      ensures r.Ok? ==> Consistent(r.value.data) && r.value.data.kind.None?
      ensures forall o :: o != caller ==> Owned(docs, o) == Owned(old(docs), o)
    {
      var e := Admit(RevenueSchema, Stamped(body, caller));
      StampedConsistent(RevenueSchema, body, caller, None, None);
      if e.None? {
        return Err(Validation);
      }
      if fault.Some? {
        return Err(Internal);
      }
      var d := Doc(nextId, caller, e.value);
      AppendFresh(docs, d, nextId);
      AllValidAppend(RevenueSchema, docs, d);
      docs := docs + [d];
      nextId := nextId + 1;
      r := Ok(d);
    }

    /** getAllRevenues: exactly the caller's documents, in stored order. */
    function All(caller: int, fault: Option<Fault>): (r: Result<seq<Doc<Entry>>>)
      reads this
      ensures fault.Some? <==> r == Err(Internal)
      ensures r.Ok? ==> forall k :: 0 <= k < |r.value| ==> r.value[k] in docs && r.value[k].owner == caller
      ensures r.Ok? ==> forall k :: 0 <= k < |docs| && docs[k].owner == caller ==> docs[k] in r.value
      ensures fault.None? ==> r == Ok(Owned(docs, caller))
    {
      if fault.Some? then Err(Internal) else Ok(Owned(docs, caller))
    }

    /** getRevenueById: `findById` is handed the whole filter object and
        matches on its `_id` alone, so the owner plays no part. */
    function GetById(id: int, fault: Option<Fault>): (r: Result<Doc<Entry>>)
      reads this
      ensures fault.Some? ==> r == Err(Internal)
      ensures r.Ok? ==> r.value in docs && r.value.id == id
      ensures r == Err(NotFound) <==> fault.None? && forall k :: 0 <= k < |docs| ==> docs[k].id != id
      ensures fault.None? && FindFirst(docs, id, None).Some? ==> r == Ok(docs[FindFirst(docs, id, None).value])
    {
      if fault.Some? then Err(Internal)
      else match FindFirst(docs, id, None)
        case None => Err(NotFound)
        case Some(i) => Ok(docs[i])
    }

    /** getRevenueById as written lets any caller read any revenue: with
        distinct ids, the document at `k` is found by its id whoever owns it. */
    lemma GetByIdCrossesOwners(k: nat)
      requires Valid() && k < |docs|
      ensures GetById(docs[k].id, None) == Ok(docs[k])
    {
    }

    /** The owner-scoped lookup getRevenueById evidently intends, as every
        other lookup issues it: `findOne({ _id: id, userId: caller })`.
        Another owner's revenue is as absent as a missing one. */
    function Get(id: int, caller: int, fault: Option<Fault>): (r: Result<Doc<Entry>>)
      reads this
      ensures fault.Some? ==> r == Err(Internal)
      ensures r.Ok? ==> r.value in docs && r.value.id == id && r.value.owner == caller
      ensures r == Err(NotFound) <==>
                fault.None? && forall k :: 0 <= k < |docs| ==> !(docs[k].id == id && docs[k].owner == caller)
      ensures fault.None? && FindFirst(docs, id, Some(caller)).Some? ==>
                r == Ok(docs[FindFirst(docs, id, Some(caller)).value])
    {
      if fault.Some? then Err(Internal)
      else match FindFirst(docs, id, Some(caller))
        case None => Err(NotFound)
        case Some(i) => Ok(docs[i])
    }

    /** updateRevenue: the caller's document is replaced wholesale by the
        body, with the date, the caller as owner and the key derived again.
        An id that cannot be cast fails before anything else and answers
        404; a validation failure answers 400. */
    method Replace(id: int, caller: int, body: Fields, fault: Option<Fault>) returns (r: Result<Doc<Entry>>)
      requires Valid()
      modifies this
      ensures Valid() && nextId == old(nextId)
      ensures fault == Some(CastFault) ==> r == Err(NotFound) && docs == old(docs)
      ensures fault != Some(CastFault) && Admit(RevenueSchema, Stamped(body, caller)).None? ==>
                r == Err(Validation) && docs == old(docs)
      ensures fault == Some(StorageFault) && Admit(RevenueSchema, Stamped(body, caller)).Some? ==>
                r == Err(Internal) && docs == old(docs)
      ensures (fault.None? && Admit(RevenueSchema, Stamped(body, caller)).Some?
               && FindFirst(old(docs), id, Some(caller)).None?) ==> r == Err(NotFound) && docs == old(docs)
      ensures (fault.None? && Admit(RevenueSchema, Stamped(body, caller)).Some?
               && FindFirst(old(docs), id, Some(caller)).Some?) ==>
                r == Ok(Doc(id, caller, Admit(RevenueSchema, Stamped(body, caller)).value))
                && docs == old(docs)[FindFirst(old(docs), id, Some(caller)).value := r.value]
      ensures r.Ok? ==> Consistent(r.value.data)
      ensures forall o :: o != caller ==> Owned(docs, o) == Owned(old(docs), o)
    {
      if fault == Some(CastFault) {
        return Err(NotFound);
      }
      var e := Admit(RevenueSchema, Stamped(body, caller));
      StampedConsistent(RevenueSchema, body, caller, None, None);
      if e.None? {
        return Err(Validation);
      }
      if fault.Some? {
        return Err(Internal);
      }
      var i := FindFirst(docs, id, Some(caller));
      if i.None? {
        return Err(NotFound);
      }
      var d := Doc(id, caller, e.value);
      ReplaceSameId(docs, i.value, d, nextId);
      AllValidReplace(RevenueSchema, docs, i.value, d);
      docs := docs[i.value := d];
      r := Ok(d);
    }

    /** patchRevenue: the patch is merged into the caller's document; the
        key is not derived again from a changed date, a `type` key is
        dropped, and a `userId` in the patch hands the document to that
        owner. Every failure answers 500. */
    method Patch(id: int, caller: int, p: Fields, fault: Option<Fault>) returns (r: Result<Doc<Entry>>)
      requires Valid()
      modifies this
      ensures Valid() && nextId == old(nextId)
      ensures !PatchValid(RevenueSchema, p) || fault.Some? ==> r == Err(Internal) && docs == old(docs)
      ensures PatchValid(RevenueSchema, p) && fault.None? && FindFirst(old(docs), id, Some(caller)).None? ==>
                r == Err(NotFound) && docs == old(docs)
      ensures PatchValid(RevenueSchema, p) && fault.None? && FindFirst(old(docs), id, Some(caller)).Some? ==>
                var i := FindFirst(old(docs), id, Some(caller)).value;
                && PatchDoc(RevenueSchema, old(docs)[i], p).Some?
                && r == Ok(PatchDoc(RevenueSchema, old(docs)[i], p).value)
                && docs == old(docs)[i := r.value]
      ensures forall o :: o != caller && p.userId != Some(o) ==> Owned(docs, o) == Owned(old(docs), o)
    {
      if !PatchValid(RevenueSchema, p) || fault.Some? {
        return Err(Internal);
      }
      var i := FindFirst(docs, id, Some(caller));
      if i.None? {
        return Err(NotFound);
      }
      PatchValidIffMergeValid(RevenueSchema, docs[i.value], p);
      var d := PatchDoc(RevenueSchema, docs[i.value], p).value;
      ReplaceSameId(docs, i.value, d, nextId);
      AllValidReplace(RevenueSchema, docs, i.value, d);
      docs := docs[i.value := d];
      r := Ok(d);
    }

    /** deleteRevenue: the caller's document with this id leaves the
        collection; nothing else changes. */
    method Delete(id: int, caller: int, fault: Option<Fault>) returns (r: Result<Doc<Entry>>)
      requires Valid()
      modifies this
      ensures Valid() && nextId == old(nextId)
      ensures fault.Some? ==> r == Err(Internal) && docs == old(docs)
      ensures fault.None? && FindFirst(old(docs), id, Some(caller)).None? ==> r == Err(NotFound) && docs == old(docs)
      ensures fault.None? && FindFirst(old(docs), id, Some(caller)).Some? ==>
                var i := FindFirst(old(docs), id, Some(caller)).value;
                r == Ok(old(docs)[i]) && docs == RemoveAt(old(docs), i)
      ensures r.Ok? ==> forall k :: 0 <= k < |docs| ==> docs[k].id != id
      ensures forall o :: o != caller ==> Owned(docs, o) == Owned(old(docs), o)
    {
      if fault.Some? {
        return Err(Internal);
      }
      var i := FindFirst(docs, id, Some(caller));
      if i.None? {
        return Err(NotFound);
      }
      RemoveAtForgetsId(docs, i.value);
      AllValidRemove(RevenueSchema, docs, i.value);
      r := Ok(docs[i.value]);
      docs := RemoveAt(docs, i.value);
    }
  }
}
