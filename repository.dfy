/** The file-backed product store. The whole collection lives in one document; every
    operation reads the whole document and every change rewrites it. The document is
    abstract state here: absent, or present with some content. */
module Repository {
  import opened Model
  import opened Seqs

  /** What an existing document holds: a null, a list of records, or something that
      cannot be read as a list of records. */
  datatype Content = Null | Items(products: seq<Product>) | Malformed

  /** The document after a read: a missing document has been created as an empty list. */
  function Initialized(doc: Option<Content>): (d: Option<Content>)
    ensures d.Some?
    ensures doc.Some? ==> d == doc
    ensures doc.None? ==> d == Some(Items([]))
  {
    match doc
    case None => Some(Items([]))
    case Some(_) => doc
  }

  /** The collection a read of the document returns. */
  function Load(doc: Option<Content>): (r: Result<seq<Product>>)
    ensures r.Err? <==> doc == Some(Malformed)
    ensures r.Err? ==> r.error == ReadFailure
    ensures doc.Some? && doc.value.Items? ==> r == Ok(doc.value.products)
    ensures r.Ok? && r.value != [] ==> doc == Some(Items(r.value))
  {
    match doc
    case None => Ok([])
    case Some(Null) => Ok([])
    case Some(Items(ps)) => Ok(ps)
    case Some(Malformed) => Err(ReadFailure)
  }

  /** Creating the missing document does not change what a read returns. */
  lemma LoadInitialized(doc: Option<Content>)
    ensures Load(Initialized(doc)) == Load(doc)
  {
  }

  /** A saved collection is read back as it was saved. */
  lemma LoadSaved(ps: seq<Product>)
    ensures Load(Some(Items(ps))) == Ok(ps)
  {
  }

  /** The search passed over the first `k` records: each has an identifier other than `id`. */
  ghost predicate PassedOver(ps: seq<Product>, id: Long, k: int) {
    0 <= k <= |ps| && forall j :: 0 <= j < k ==> ps[j].id.Some? && ps[j].id.value != id
  }

  /** The first record in stored order with identifier `id`. Comparing a null identifier
      raises, so the search fails on a null identifier met before a match. */
  function FindFirst(ps: seq<Product>, id: Long): (r: Result<Product>)
    ensures r.Ok? <==> exists i :: 0 <= i < |ps| && PassedOver(ps, id, i) && ps[i].id == Some(id)
    ensures r.Ok? ==> exists i :: 0 <= i < |ps| && PassedOver(ps, id, i) && ps[i] == r.value
    ensures r.Ok? ==> r.value.id == Some(id)
    ensures r == Err(NotFound(id)) <==> PassedOver(ps, id, |ps|)
    ensures r.Err? ==> r.error == NotFound(id) || r.error == NullPointer
  {
    if ps == [] then Err(NotFound(id))
    else
      var rest := ps[1..];
      match ps[0].id
      case None =>
        assert !PassedOver(ps, id, |ps|);
        Err(NullPointer)
      case Some(i) =>
        if i == id then
          assert PassedOver(ps, id, 0);
          Ok(ps[0])
        else
          PassedOverTail(ps, id);
          FindFirst(rest, id)
  }

  /** Passing over a first record with another identifier shifts the search by one. */
  lemma PassedOverTail(ps: seq<Product>, id: Long)
    requires ps != [] && ps[0].id.Some? && ps[0].id.value != id
    ensures forall k :: 0 <= k <= |ps| - 1 ==> (PassedOver(ps, id, k + 1) <==> PassedOver(ps[1..], id, k))
  {
    var rest := ps[1..];
    forall k | 0 <= k <= |rest|
      ensures PassedOver(ps, id, k + 1) <==> PassedOver(rest, id, k)
    {
      assert forall j :: 0 <= j < k ==> rest[j] == ps[j + 1];
    }
  }

  /** When every record has an identifier, the search succeeds exactly when the
      identifier is stored. */
  lemma {:induction false} FindFirstFindsStored(ps: seq<Product>, id: Long)
    requires AllHaveIds(ps)
    ensures FindFirst(ps, id).Ok? <==> HasId(ps, id)
  {
    if ps != [] {
      if ps[0].id == Some(id) {
        assert HasId(ps, id);
      } else {
        var rest := ps[1..];
        assert forall j :: 0 <= j < |rest| ==> rest[j] == ps[j + 1];
        FindFirstFindsStored(rest, id);
        assert HasId(rest, id) ==> HasId(ps, id);
        assert HasId(ps, id) ==> HasId(rest, id);
      }
    }
  }

  /** The records `removeIf` keeps when deleting `id`. */
  function KeepsOther(id: Long): Product -> bool {
    (p: Product) => p.id != Some(id)
  }

  /** `removeIf` with the identifier test: the predicate runs on every record, so a null
      identifier anywhere raises and nothing is removed; otherwise every record with the
      identifier is removed and the rest keep their order. */
  function RemoveId(ps: seq<Product>, id: Long): (r: Result<seq<Product>>)
    ensures r.Ok? <==> AllHaveIds(ps)
    ensures r.Err? ==> r.error == NullPointer
    ensures r.Ok? ==> !HasId(r.value, id) && AllHaveIds(r.value) && |r.value| <= |ps|
  {
    if AllHaveIds(ps) then
      var rest := Select(ps, KeepsOther(id));
      forall j | 0 <= j < |rest| ensures rest[j] in ps && KeepsOther(id)(rest[j]) {
        SelectMembership(ps, KeepsOther(id), rest[j]);
      }
      Ok(rest)
    else Err(NullPointer)
  }

  /** A record survives the removal exactly when it is stored with another identifier, and
      it survives as often as it is stored. */
  lemma RemoveIdKeepsOthers(ps: seq<Product>, id: Long, x: Product)
    requires AllHaveIds(ps)
    ensures x in RemoveId(ps, id).value <==> x in ps && x.id != Some(id)
    ensures multiset(RemoveId(ps, id).value)[x] == if x.id == Some(id) then 0 else multiset(ps)[x]
  {
    SelectMembership(ps, KeepsOther(id), x);
    SelectCount(ps, KeepsOther(id), x);
  }

  /** Removal preserves order: removing from a concatenation removes from each part. */
  lemma RemoveIdAppend(a: seq<Product>, b: seq<Product>, id: Long)
    requires AllHaveIds(a) && AllHaveIds(b)
    ensures AllHaveIds(a + b)
    ensures RemoveId(a + b, id).value == RemoveId(a, id).value + RemoveId(b, id).value
  {
    assert forall i :: 0 <= i < |a + b| ==> (a + b)[i] == if i < |a| then a[i] else b[i - |a|];
    SelectAppend(a, b, KeepsOther(id));
  }

  /** Removing an identifier that is not stored changes nothing. */
  lemma RemoveAbsentId(ps: seq<Product>, id: Long)
    requires AllHaveIds(ps) && !HasId(ps, id)
    ensures RemoveId(ps, id) == Ok(ps)
  {
    SelectAll(ps, KeepsOther(id));
  }

  /** Removing the same identifier twice is removing it once. */
  lemma RemoveIdIdempotent(ps: seq<Product>, id: Long)
    requires AllHaveIds(ps)
    ensures RemoveId(RemoveId(ps, id).value, id) == RemoveId(ps, id)
  {
    SelectIdempotent(ps, KeepsOther(id));
  }

  /** Removal keeps identifiers unique: what survives is a part of the collection. */
  lemma {:induction false} RemoveIdUnique(ps: seq<Product>, id: Long)
    requires AllHaveIds(ps) && UniqueIds(ps)
    ensures UniqueIds(RemoveId(ps, id).value)
  {
    if ps != [] {
      var rest := ps[1..];
      assert forall j :: 0 <= j < |rest| ==> rest[j] == ps[j + 1];
      RemoveIdUnique(rest, id);
      var tail := RemoveId(rest, id).value;
      forall j | 0 <= j < |tail|
        ensures tail[j].id != ps[0].id
      {
        SelectMembership(rest, KeepsOther(id), tail[j]);
        var k :| 0 <= k < |rest| && rest[k] == tail[j];
        assert ps[k + 1] == tail[j];
      }
      assert RemoveId(ps, id).value == (if KeepsOther(id)(ps[0]) then [ps[0]] else []) + tail;
    }
  }

  /** After a removal the search for the removed identifier finds nothing. */
  lemma RemovedNotFound(ps: seq<Product>, id: Long)
    requires AllHaveIds(ps)
    ensures FindFirst(RemoveId(ps, id).value, id) == Err(NotFound(id))
  {
    var rest := RemoveId(ps, id).value;
    FindFirstFindsStored(rest, id);
    assert PassedOver(rest, id, |rest|);
  }

  /** A record appended after a collection that lacks its identifier is the one the
      search finds. */
  lemma {:induction false} FindAppended(ps: seq<Product>, q: Product, id: Long)
    requires AllHaveIds(ps) && !HasId(ps, id) && q.id == Some(id)
    ensures FindFirst(ps + [q], id) == Ok(q)
  {
    if ps == [] {
      assert ps + [q] == [q];
    } else {
      var rest := ps[1..];
      assert forall j :: 0 <= j < |rest| ==> rest[j] == ps[j + 1];
      assert (ps + [q])[1..] == rest + [q];
      assert ps[0].id != Some(id);
      FindAppended(rest, q, id);
    }
  }

  /** The store. `doc` is the persisted document; `None` means it does not exist yet. */
  class ProductRepository {
    var doc: Option<Content>

    constructor (initial: Option<Content>)
      ensures doc == initial
    {
      doc := initial;
    }

    /** Reads the whole collection, creating the document as an empty list when it is
        missing; a null document reads as the empty collection. */
    method GetAll() returns (r: Result<seq<Product>>)
      modifies this
      ensures doc == Initialized(old(doc))
      ensures r == Load(old(doc))
    {
      if doc.None? {
        doc := Some(Items([]));
      }
      match doc.value
      case Null => r := Ok([]);
      case Items(ps) => r := Ok(ps);
      case Malformed => r := Err(ReadFailure);
    }

    /** The first stored record with the identifier. */
    method FindById(id: Long) returns (r: Result<Product>)
      modifies this
      ensures doc == Initialized(old(doc))
      ensures r == match Load(old(doc))
                   case Err(e) => Err(e)
                   case Ok(ps) => FindFirst(ps, id)
    {
      var all := GetAll();
      match all
      case Err(e) => r := Err(e);
      case Ok(ps) => r := FindFirst(ps, id);
    }

    /** Overwrites the whole document with the collection. */
    method Save(ps: seq<Product>)
      modifies this
      ensures doc == Some(Items(ps))
    {
      doc := Some(Items(ps));
    }

    /** Removes every record with the identifier and saves the rest. Deleting an
        identifier that is not stored succeeds and saves the collection unchanged. */
    method Delete(id: Long) returns (r: Result<Long>)
      modifies this
      ensures match Load(old(doc))
              case Err(e) => r == Err(e) && doc == Initialized(old(doc))
              case Ok(ps) =>
                match RemoveId(ps, id)
                case Err(e) => r == Err(e) && doc == Initialized(old(doc))
                case Ok(rest) => r == Ok(id) && doc == Some(Items(rest))
    {
      var all := GetAll();
      match all
      case Err(e) =>
        r := Err(e);
      case Ok(ps) =>
        match RemoveId(ps, id)
        case Err(e) =>
          r := Err(e);
        case Ok(rest) =>
          Save(rest);
          r := Ok(id);
    }
  }
}
