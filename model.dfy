/** The catalog's value types: the persisted product record, the transfer object the
    service receives, a filter criterion, and the error kinds the service can raise. */
module Model {

  datatype Option<+T> = None | Some(value: T)

  /** Signed 64-bit integer, the width of Java's `long`/`Long`. */
  newtype Long = x: int | -0x8000_0000_0000_0000 <= x < 0x8000_0000_0000_0000

  const LongMin: Long := -0x8000_0000_0000_0000
  const LongMax: Long := 0x7fff_ffff_ffff_ffff

  /** A persisted catalog record. The identifier is nullable: a product built from a
      transfer object has no identifier until the service assigns one. The two decimal
      attributes are exact reals (see README). */
  datatype Product = Product(
    id: Option<Long>,
    name: string,
    image: string,
    description: string,
    price: real,
    rating: real,
    specifications: string)

  /** The product as clients send it: every attribute but the identifier. */
  datatype ProductDto = ProductDto(
    name: string,
    image: string,
    description: string,
    price: real,
    rating: real,
    specifications: string)

  /** One criterion of a filter request: an attribute name and an expected value. */
  datatype Filter = Filter(key: string, value: string)

  /** The failures the catalog surfaces, named after their cause. */
  datatype Error =
    | EmptyFilter              // BadResourceRequestException: empty key or value
    | InvalidColumn(key: string) // BadResourceRequestException: unknown attribute
    | NullProduct              // BadResourceRequestException: create without a product
    | CreateFailed(cause: Error) // BadResourceRequestException rewrapping a failure inside create
    | NotFound(id: Long)       // NoSuchResourceFoundException
    | NullPointer              // NullPointerException: a null identifier or transfer object
    | NumberFormat(text: string) // NumberFormatException from the numeric parse
    | ReadFailure              // the stored document cannot be decoded

  /** The errors that reach the caller as a BadResourceRequestException. */
  predicate IsBadRequest(e: Error) {
    e.EmptyFilter? || e.InvalidColumn? || e.NullProduct? || e.CreateFailed?
  }

  datatype Result<+T> = Ok(value: T) | Err(error: Error)

  /** Every record carries an identifier. */
  predicate AllHaveIds(ps: seq<Product>) {
    forall i :: 0 <= i < |ps| ==> ps[i].id.Some?
  }

  /** Some record of the collection carries identifier `id`. */
  predicate HasId(ps: seq<Product>, id: Long) {
    exists i :: 0 <= i < |ps| && ps[i].id == Some(id)
  }

  /** No two records share an identifier. */
  predicate UniqueIds(ps: seq<Product>) {
    forall i, j :: 0 <= i < |ps| && 0 <= j < |ps| && i != j ==> ps[i].id != ps[j].id
  }
}
