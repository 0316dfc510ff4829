/** The persistence layer's view of one collection: documents in stored
    (natural) order, and the owner-scoped queries the controllers issue
    (`find`, `findOne`, `findById`, removal and replacement in place). */
module Collection {
  import opened Common

  /** A stored document: its `_id`, its `userId` and the rest of its fields. */
  datatype Doc<T> = Doc(id: int, owner: int, data: T)

  predicate IdsDistinct<T>(docs: seq<Doc<T>>) {
    forall i, j :: 0 <= i < j < |docs| ==> docs[i].id != docs[j].id
  }

  /** Every id in use lies below `n`, the next id to hand out. */
  predicate IdsBelow<T>(docs: seq<Doc<T>>, n: int) {
    forall k :: 0 <= k < |docs| ==> docs[k].id < n
  }

  /** Appending a document under the next id keeps the ids distinct. */
  lemma AppendFresh<T>(docs: seq<Doc<T>>, d: Doc<T>, n: int)
    requires IdsDistinct(docs) && IdsBelow(docs, n) && d.id == n
    ensures IdsDistinct(docs + [d]) && IdsBelow(docs + [d], n + 1)
    ensures forall o :: o != d.owner ==> Owned(docs + [d], o) == Owned(docs, o)
  {
    forall o | o != d.owner ensures Owned(docs + [d], o) == Owned(docs, o) {
      OwnedAppendOther(docs, d, o);
    }
    var r := docs + [d];
    forall j, k | 0 <= j < k < |r| ensures r[j].id != r[k].id {
      if k == |docs| {
        assert r[j] == docs[j];
      } else {
        assert r[j] == docs[j] && r[k] == docs[k];
      }
    }
  }

  /** Replacing a document by one with the same id keeps the ids distinct. */
  lemma ReplaceSameId<T>(docs: seq<Doc<T>>, i: nat, d: Doc<T>, n: int)
    requires i < |docs| && IdsDistinct(docs) && IdsBelow(docs, n) && d.id == docs[i].id
    ensures IdsDistinct(docs[i := d]) && IdsBelow(docs[i := d], n)
    ensures forall o :: o != docs[i].owner && o != d.owner ==> Owned(docs[i := d], o) == Owned(docs, o)
  {
    forall o | o != docs[i].owner && o != d.owner ensures Owned(docs[i := d], o) == Owned(docs, o) {
      OwnedReplaceOther(docs, i, d, o);
    }
    var r := docs[i := d];
    forall j, k | 0 <= j < k < |r| ensures r[j].id != r[k].id {
      assert r[j].id == docs[j].id && r[k].id == docs[k].id;
    }
  }

  /** `find({ userId: owner })`: the owner's documents, in stored order. */
  function Owned<T>(docs: seq<Doc<T>>, owner: int): (r: seq<Doc<T>>)
    ensures forall k :: 0 <= k < |r| ==> r[k] in docs && r[k].owner == owner
    ensures forall k :: 0 <= k < |docs| && docs[k].owner == owner ==> docs[k] in r
    ensures |r| <= |docs|
  {
    if docs == [] then []
    else Owned(docs[..|docs| - 1], owner) + (if docs[|docs| - 1].owner == owner then [docs[|docs| - 1]] else [])
  }

  /** The query filter `{ _id: id, userId: owner }`, or `{ _id: id }` when no owner is given. */
  predicate Matches<T>(d: Doc<T>, id: int, owner: Option<int>) {
    d.id == id && (owner.Some? ==> d.owner == owner.value)
  }

  /** `findOne(filter)`: the position of the first document that matches. */
  function FindFirst<T>(docs: seq<Doc<T>>, id: int, owner: Option<int>): (r: Option<nat>)
    ensures r.Some? ==> r.value < |docs| && Matches(docs[r.value], id, owner)
    ensures r.Some? ==> forall j :: 0 <= j < r.value ==> !Matches(docs[j], id, owner)
    ensures r.None? ==> forall j :: 0 <= j < |docs| ==> !Matches(docs[j], id, owner)
  {
    if docs == [] then None
    else if Matches(docs[0], id, owner) then Some(0)
    else match FindFirst(docs[1..], id, owner)
      case None => None
      case Some(k) => Some(k + 1)
  }

  /** `findOneAndDelete`'s effect: the document at `i` leaves, the others keep their order. */
  function RemoveAt<T>(docs: seq<Doc<T>>, i: nat): (r: seq<Doc<T>>)
    requires i < |docs|
    ensures |r| == |docs| - 1
    ensures forall j :: 0 <= j < i ==> r[j] == docs[j]
    ensures forall j :: i <= j < |r| ==> r[j] == docs[j + 1]
  {
    docs[..i] + docs[i + 1..]
  }

  /** Filtering by owner distributes over concatenation. */
  lemma {:induction false} OwnedConcat<T>(a: seq<Doc<T>>, b: seq<Doc<T>>, owner: int)
    ensures Owned(a + b, owner) == Owned(a, owner) + Owned(b, owner)
  {
    if b == [] {
      assert a + b == a;
    } else {
      assert (a + b)[..|a + b| - 1] == a + b[..|b| - 1];
      OwnedConcat(a, b[..|b| - 1], owner);
    }
  }

  lemma OwnedSingleOther<T>(d: Doc<T>, owner: int)
    requires d.owner != owner
    ensures Owned([d], owner) == []
  {
    assert [d][..0] == [];
  }

  /** Removing a document leaves every other owner's view as it was. */
  lemma OwnedRemoveOther<T>(docs: seq<Doc<T>>, i: nat, owner: int)
    requires i < |docs| && docs[i].owner != owner
    ensures Owned(RemoveAt(docs, i), owner) == Owned(docs, owner)
  {
    var a, b := docs[..i], docs[i + 1..];
    calc {
      Owned(RemoveAt(docs, i), owner);
      Owned(a + b, owner);
      { OwnedConcat(a, b, owner); }
      Owned(a, owner) + Owned(b, owner);
      { OwnedSingleOther(docs[i], owner); }
      Owned(a, owner) + (Owned([docs[i]], owner) + Owned(b, owner));
      { OwnedConcat([docs[i]], b, owner); }
      Owned(a, owner) + Owned([docs[i]] + b, owner);
      { OwnedConcat(a, [docs[i]] + b, owner); }
      Owned(a + ([docs[i]] + b), owner);
      { assert docs == a + ([docs[i]] + b); }
      Owned(docs, owner);
    }
  }

  /** Replacing a document of another owner by another owner's document
      leaves the view of `owner` as it was. */
  lemma OwnedReplaceOther<T>(docs: seq<Doc<T>>, i: nat, d: Doc<T>, owner: int)
    requires i < |docs| && docs[i].owner != owner && d.owner != owner
    ensures Owned(docs[i := d], owner) == Owned(docs, owner)
  {
    var a, b := docs[..i], docs[i + 1..];
    assert docs == a + ([docs[i]] + b);
    assert docs[i := d] == a + ([d] + b);
    OwnedConcat(a, [docs[i]] + b, owner);
    OwnedConcat([docs[i]], b, owner);
    OwnedSingleOther(docs[i], owner);
    OwnedConcat(a, [d] + b, owner);
    OwnedConcat([d], b, owner);
    OwnedSingleOther(d, owner);
  }

  /** Appending a document leaves every other owner's view as it was. */
  lemma OwnedAppendOther<T>(docs: seq<Doc<T>>, d: Doc<T>, owner: int)
    requires d.owner != owner
    ensures Owned(docs + [d], owner) == Owned(docs, owner)
  {
    assert (docs + [d])[..|docs + [d]| - 1] == docs;
  }

  /** With distinct ids, once the document at `i` is removed no document
      with its id is left, and the ids stay distinct. */
  lemma RemoveAtForgetsId<T>(docs: seq<Doc<T>>, i: nat)
    requires i < |docs| && IdsDistinct(docs)
    ensures IdsDistinct(RemoveAt(docs, i))
    ensures forall n :: IdsBelow(docs, n) ==> IdsBelow(RemoveAt(docs, i), n)
    ensures forall j :: 0 <= j < |docs| - 1 ==> RemoveAt(docs, i)[j].id != docs[i].id
    ensures forall o :: o != docs[i].owner ==> Owned(RemoveAt(docs, i), o) == Owned(docs, o)
  {
    forall o | o != docs[i].owner ensures Owned(RemoveAt(docs, i), o) == Owned(docs, o) {
      OwnedRemoveOther(docs, i, o);
    }
    var r := RemoveAt(docs, i);
    forall j, k | 0 <= j < k < |r| ensures r[j].id != r[k].id {
      var j' := if j < i then j else j + 1;
      var k' := if k < i then k else k + 1;
      assert r[j] == docs[j'] && r[k] == docs[k'] && j' < k';
    }
    forall j | 0 <= j < |r| ensures r[j].id != docs[i].id {
      var j' := if j < i then j else j + 1;
      assert r[j] == docs[j'] && j' != i;
    }
  }
}
