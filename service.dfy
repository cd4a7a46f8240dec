/** The catalog operations over the store: listing, search by identifier, filtering,
    creation with a generated identifier, update by delete-and-reinsert, and deletion. */
module Service {
  import opened Model
  import opened Seqs
  import opened Mapper
  import opened FilterEngine
  import opened Repository

  /** The largest identifier of a non-empty collection whose records all have one. */
  function MaxId(ps: seq<Product>): (m: Long)
    requires |ps| > 0 && AllHaveIds(ps)
    ensures HasId(ps, m)
    ensures forall i :: 0 <= i < |ps| ==> ps[i].id.value <= m
  {
    if |ps| == 1 then ps[0].id.value
    else
      var rest := ps[1..];
      assert forall j :: 0 <= j < |rest| ==> rest[j] == ps[j + 1];
      var m := MaxId(rest);
      if ps[0].id.value >= m then ps[0].id.value else m
  }

  /** Java `long` addition of one, which wraps around at the largest value. */
  function Increment(x: Long): (y: Long)
    ensures (y as int - (x as int + 1)) % 0x1_0000_0000_0000_0000 == 0
  {
    if x == LongMax then LongMin else x + 1
  }

  /** The identifier `create` assigns: one more than the largest stored identifier, or 1 for
      an empty collection. Unboxing a null identifier raises. */
  function NextId(ps: seq<Product>): (r: Result<Long>)
    ensures r.Ok? <==> AllHaveIds(ps)
    ensures r.Err? ==> r.error == NullPointer
  {
    if !AllHaveIds(ps) then Err(NullPointer)
    else if ps == [] then Ok(1)
    else Ok(Increment(MaxId(ps)))
  }

  /** Every identifier is below the largest `long`, so one more than the largest does not wrap. */
  predicate BelowLongMax(ps: seq<Product>) {
    forall i :: 0 <= i < |ps| ==> ps[i].id.Some? && ps[i].id.value < LongMax
  }

  /** Without wrap-around the new identifier is the least value above every stored one:
      1 for an empty collection, otherwise one more than a stored identifier; so it is not
      stored yet. */
  lemma NextIdFresh(ps: seq<Product>)
    requires BelowLongMax(ps)
    ensures NextId(ps).Ok?
    ensures forall i :: 0 <= i < |ps| ==> ps[i].id.value < NextId(ps).value
    ensures ps == [] ==> NextId(ps).value == 1
    ensures ps != [] ==> exists i :: 0 <= i < |ps| && ps[i].id.value as int + 1 == NextId(ps).value as int
    ensures !HasId(ps, NextId(ps).value)
  {
    if ps != [] {
      var m := MaxId(ps);
      var i :| 0 <= i < |ps| && ps[i].id == Some(m);
      assert ps[i].id.value as int + 1 == NextId(ps).value as int;
    }
  }

  /** At the largest identifier the addition wraps, and the assigned identifier can be
      one that is already stored. */
  lemma NextIdWrapsAround(p: Product)
    ensures var ps := [p.(id := Some(LongMin)), p.(id := Some(LongMax))];
            NextId(ps) == Ok(LongMin) && HasId(ps, LongMin)
  {
    var ps := [p.(id := Some(LongMin)), p.(id := Some(LongMax))];
    assert MaxId(ps) == LongMax;
    assert ps[0].id == Some(LongMin);
  }

  /** The record `create` stores for `d` in collection `ps`: the transfer object's
      attributes under the next identifier. */
  function Created(ps: seq<Product>, d: ProductDto): (r: Result<Product>)
    ensures r.Ok? <==> AllHaveIds(ps)
    ensures r.Err? ==> r.error == NullPointer
    ensures r.Ok? ==> r.value.id == Some(NextId(ps).value) && ToDto(r.value) == d
  {
    match NextId(ps)
    case Err(e) => Err(e)
    case Ok(n) => Ok(ToEntity(d).(id := Some(n)))
  }

  /** Creation keeps identifiers unique and the new record is then the one found under
      its identifier. */
  lemma CreatedIsFresh(ps: seq<Product>, d: ProductDto)
    requires BelowLongMax(ps) && UniqueIds(ps)
    ensures Created(ps, d).Ok?
    ensures !HasId(ps, Created(ps, d).value.id.value)
    ensures UniqueIds(ps + [Created(ps, d).value])
    ensures FindFirst(ps + [Created(ps, d).value], Created(ps, d).value.id.value) == Ok(Created(ps, d).value)
  {
    NextIdFresh(ps);
    var p := Created(ps, d).value;
    var qs := ps + [p];
    assert forall i :: 0 <= i < |ps| ==> qs[i] == ps[i];
    FindAppended(ps, p, p.id.value);
  }

  /** Identifiers are not reserved: deleting the record with the largest identifier and
      creating again hands out that identifier once more. */
  lemma IdReusedAfterDelete(p: Product, d: ProductDto)
    requires p.id == Some(1)
    ensures RemoveId([p], 1) == Ok([])
    ensures Created(RemoveId([p], 1).value, d).value.id == Some(1)
  {
    assert RemoveId([p], 1).value == [] by {
      RemoveIdKeepsOthers([p], 1, p);
    }
  }

  /** Creating in an empty collection assigns identifier 1. */
  lemma CreatedFirst(d: ProductDto)
    ensures Created([], d) == Ok(ToEntity(d).(id := Some(1)))
  {
  }

  /** The record `update` stores: the found record with the identifier set again and the
      six attributes taken from `d`. */
  function Updated(found: Product, id: Long, d: ProductDto): (p: Product)
    ensures p.id == Some(id) && ToDto(p) == d
    ensures p == ToEntity(d).(id := Some(id))
  {
    found.(id := Some(id), name := d.name, description := d.description, image := d.image,
           price := d.price, rating := d.rating, specifications := d.specifications)
  }

  /** The collection an update saves holds the records stored under other identifiers in
      their order, followed by the updated record, which is the only one with its identifier
      and the one found under it; identifiers stay unique. */
  lemma UpdatedCollection(ps: seq<Product>, found: Product, id: Long, d: ProductDto)
    requires AllHaveIds(ps)
    ensures var qs := RemoveId(ps, id).value + [Updated(found, id, d)];
            && qs[|qs| - 1] == Updated(found, id, d)
            && (forall x :: x in qs[..|qs| - 1] <==> x in ps && x.id != Some(id))
            && (forall i :: 0 <= i < |qs| && qs[i].id == Some(id) ==> i == |qs| - 1)
            && FindFirst(qs, id) == Ok(Updated(found, id, d))
            && (UniqueIds(ps) ==> UniqueIds(qs))
  {
    var rest := RemoveId(ps, id).value;
    var u := Updated(found, id, d);
    var qs := rest + [u];
    assert qs[..|qs| - 1] == rest;
    forall x ensures x in rest <==> x in ps && x.id != Some(id) {
      RemoveIdKeepsOthers(ps, id, x);
    }
    assert forall i :: 0 <= i < |rest| ==> qs[i] == rest[i];
    FindAppended(rest, u, id);
    if UniqueIds(ps) {
      RemoveIdUnique(ps, id);
    }
  }

  /** The service. It holds the store; the mapper is stateless and appears as functions. */
  class ProductService {
    const repo: ProductRepository

    constructor (repo: ProductRepository)
      ensures this.repo == repo
    {
      this.repo := repo;
    }

    /** The records that satisfy every criterion, in stored order. */
    method FilterProducts(fs: seq<Filter>) returns (r: Result<seq<Product>>)
      modifies repo
      ensures repo.doc == Initialized(old(repo.doc))
      ensures r == match Load(old(repo.doc))
                   case Err(e) => Err(e)
                   case Ok(ps) => FilterList(ps, fs)
    {
      var all := repo.GetAll();
      match all
      case Err(e) => r := Err(e);
      case Ok(ps) => r := FilterList(ps, fs);
    }

    /** The whole collection. */
    method GetAll() returns (r: Result<seq<Product>>)
      modifies repo
      ensures repo.doc == Initialized(old(repo.doc))
      ensures r == Load(old(repo.doc))
    {
      r := repo.GetAll();
    }

    /** The first record with the identifier. */
    method GetById(id: Long) returns (r: Result<Product>)
      modifies repo
      ensures repo.doc == Initialized(old(repo.doc))
      ensures r == match Load(old(repo.doc))
                   case Err(e) => Err(e)
                   case Ok(ps) => FindFirst(ps, id)
    {
      r := repo.FindById(id);
    }

    /** Appends the transfer object's record under the next identifier and saves. A missing
        transfer object is rejected before the store is read; every other failure is
        reported as a failed creation. */
    method Create(dto: Option<ProductDto>) returns (r: Result<Product>)
      modifies repo
      ensures r.Err? ==> IsBadRequest(r.error)
      ensures dto.None? ==> r == Err(NullProduct) && repo.doc == old(repo.doc)
      ensures dto.Some? ==>
                match Load(old(repo.doc))
                case Err(e) => r == Err(CreateFailed(e)) && repo.doc == Initialized(old(repo.doc))
                case Ok(ps) =>
                  match Created(ps, dto.value)
                  case Err(e) => r == Err(CreateFailed(e)) && repo.doc == Initialized(old(repo.doc))
                  case Ok(p) => r == Ok(p) && repo.doc == Some(Items(ps + [p]))
    {
      if dto.None? {
        r := Err(NullProduct);
        return;
      }
      var product := ToEntity(dto.value);
      var all := repo.GetAll();
      match all
      case Err(e) =>
        r := Err(CreateFailed(e));
      case Ok(ps) =>
        match NextId(ps)
        case Err(e) =>
          r := Err(CreateFailed(e));
        case Ok(n) =>
          product := product.(id := Some(n));
          repo.Save(ps + [product]);
          r := Ok(product);
    }

    /** Finds the record, deletes every record with the identifier, then stores the found
        record with the transfer object's attributes at the end. A missing transfer object
        raises only after the deletion has been saved. */
    method Update(id: Long, dto: Option<ProductDto>) returns (r: Result<Product>)
      modifies repo
      ensures match Load(old(repo.doc))
              case Err(e) => r == Err(e) && repo.doc == Initialized(old(repo.doc))
              case Ok(ps) =>
                match FindFirst(ps, id)
                case Err(e) => r == Err(e) && repo.doc == Initialized(old(repo.doc))
                case Ok(found) =>
                  match RemoveId(ps, id)
                  case Err(e) => r == Err(e) && repo.doc == Initialized(old(repo.doc))
                  case Ok(rest) =>
                    match dto
                    case None => r == Err(NullPointer) && repo.doc == Some(Items(rest))
                    case Some(d) =>
                      r == Ok(Updated(found, id, d)) && repo.doc == Some(Items(rest + [Updated(found, id, d)]))
    {
      var found := repo.FindById(id);
      if found.Err? {
        r := Err(found.error);
        return;
      }
      var deleted := repo.Delete(id);
      if deleted.Err? {
        r := Err(deleted.error);
        return;
      }
      var all := repo.GetAll();
      match all
      case Err(e) =>
        r := Err(e);
      case Ok(products) =>
        match dto
        case None =>
          r := Err(NullPointer);
        case Some(d) =>
          var p := Updated(found.value, id, d);
          repo.Save(products + [p]);
          r := Ok(p);
    }

    /** Looks the record up first, so an absent identifier fails before anything is
        removed; then deletes under the found record's identifier and returns the
        identifier given. */
    method Delete(id: Long) returns (r: Result<Long>)
      modifies repo
      ensures match Load(old(repo.doc))
              case Err(e) => r == Err(e) && repo.doc == Initialized(old(repo.doc))
              case Ok(ps) =>
                match FindFirst(ps, id)
                case Err(e) => r == Err(e) && repo.doc == Initialized(old(repo.doc))
                case Ok(_) =>
                  match RemoveId(ps, id)
                  case Err(e) => r == Err(e) && repo.doc == Initialized(old(repo.doc))
                  case Ok(rest) => r == Ok(id) && repo.doc == Some(Items(rest))
    {
      var found := GetById(id);
      if found.Err? {
        r := Err(found.error);
        return;
      }
      var deleted := repo.Delete(found.value.id.value);
      if deleted.Err? {
        r := Err(deleted.error);
      } else {
        r := Ok(id);
      }
    }
  }
}
