/** Conversion between the transfer object and the persisted record: a plain copy of the
    six attributes they share. */
module Mapper {
  import opened Model

  /** A record built from a transfer object. The identifier is left unset. */
  function ToEntity(d: ProductDto): (p: Product)
    ensures p.id == None
    ensures p.name == d.name && p.description == d.description && p.image == d.image
    ensures p.price == d.price && p.rating == d.rating && p.specifications == d.specifications
  {
    Product(None, d.name, d.image, d.description, d.price, d.rating, d.specifications)
  }

  /** The transfer object of a record: every attribute but the identifier. */
  function ToDto(p: Product): (d: ProductDto)
    ensures d.name == p.name && d.description == p.description && d.image == p.image
    ensures d.price == p.price && d.rating == p.rating && d.specifications == p.specifications
  {
    ProductDto(p.name, p.image, p.description, p.price, p.rating, p.specifications)
  }

  /** Converting a transfer object to a record and back gives the transfer object. */
  lemma DtoRoundTrip(d: ProductDto)
    ensures ToDto(ToEntity(d)) == d
  {
  }

  /** Converting a record to a transfer object and back loses exactly the identifier. */
  lemma EntityRoundTrip(p: Product)
    ensures ToEntity(ToDto(p)) == p.(id := None)
  {
  }

  /** Two records agree on everything but their identifiers exactly when their transfer
      objects are equal. */
  lemma ToDtoForgetsOnlyId(p: Product, q: Product)
    ensures ToDto(p) == ToDto(q) <==> p.(id := None) == q.(id := None)
  {
    EntityRoundTrip(p);
    EntityRoundTrip(q);
  }
}
