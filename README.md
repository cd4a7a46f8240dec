# Product catalog core, modelled in Dafny

This project models the core of a small product-catalog service written in Java with
Spring. It covers three classes.

- **`ProductService`** lists the catalog, finds a product by identifier and filters
  products by dynamic `(key, value)` criteria. It also creates products under generated
  identifiers, updates them by delete-and-reinsert, and deletes them.
- **`IProductRepository`** keeps the whole catalog as one JSON document. Every read loads
  the whole document and every change rewrites it.
- **`ProductMapper`** copies the six shared attributes between a product and its transfer
  object.

The Dafny modules follow the same structure:

- `Model` (`model.dfy`) holds the record, the transfer object, the filter criterion, the
  errors and the 64-bit `Long`.
- `Seqs` (`seqs.dfy`) holds order-preserving selection from a sequence. It stands for a
  stream `filter(...).toList()` and for `List.removeIf`.
- `Text` (`text.dfy`) holds ASCII lower-casing, substring search and the parse of a
  decimal literal.
- `Mapper` (`mapper.dfy`) holds the two conversions.
- `FilterEngine` (`filter.dfy`) holds the evaluation of criteria. It replaces reflection
  with a fixed table of the seven declared attribute names. `FilterExamples`
  (`filter_examples.dfy`) evaluates it on the product used by the service tests. The
  tests never set that product's image, so it is null there. Text attributes are never
  null in this model, so `FilterExamples.Ball` has the empty image instead. Only a
  criterion on `image` would tell the two apart: the Java code raises
  `NullPointerException` on it.
- `Repository` (`repository.dfy`) holds the class `ProductRepository`. Its field `doc` is
  the persisted document: `None` means the file does not exist, otherwise it holds a null,
  a list of records, or content that cannot be read.
- `Service` (`service.dfy`) holds the class `ProductService`, the identifier generation,
  and the records that create and update store.

Java exceptions are modelled as `Err` values of one `Error` datatype:

- `IsBadRequest` marks the errors that surface as `BadResourceRequestException`.
- `NotFound` stands for `NoSuchResourceFoundException`.
- `NullPointer` stands for a `NullPointerException`.
- `NumberFormat` stands for a failed `Double.parseDouble`.

Each repository and service method states its whole result and its whole new document
as functions of the old document. The lemmas then prove what the catalog promises about
those functions.

Three behaviours follow the code where a plain reading of the intent would differ.

- The criteria of one record are evaluated with `allMatch`, which stops at the first one
  that does not hold. A malformed criterion after a failing one is therefore never
  reported (`FilterExamples.UnknownColumnAfterMismatchUnreported`). The empty-criterion
  and invalid-column checks sit inside the per-record predicate
  (`ProductService.java:42-48`). With no stored records that predicate never runs, so an
  empty collection reports neither (`FilterEngine.FilterList`).
- The `catch` around the field lookup only catches the reflection exceptions. A value
  that does not parse as a number raises `NumberFormatException`, which is not a
  `BadResourceRequestException` (`FilterExamples.MalformedNumberIsParseFailure`).
- A new identifier is one more than the largest stored one. Identifiers are
  therefore reused after the record with the largest one is deleted: delete the only
  record, with identifier 1, then create, and the new record gets identifier 1 again
  (`Service.IdReusedAfterDelete`).

## Model

| member | source | states |
|---|---|---|
| `Mapper.ToEntity` | src/main/java/com/hackerrank/sample/mapper/ProductMapper.java:10-19 | the new record copies name, description, price, rating, image and specifications from the transfer object and leaves the identifier null |
| `Mapper.ToDto` | src/main/java/com/hackerrank/sample/mapper/ProductMapper.java:21-30 | the transfer object copies the same six attributes from the record |
| `Mapper.DtoRoundTrip` | src/main/java/com/hackerrank/sample/mapper/ProductMapper.java:10-30 | converting a transfer object to a record and back gives the transfer object |
| `Mapper.EntityRoundTrip` | src/main/java/com/hackerrank/sample/mapper/ProductMapper.java:10-30 | converting a record to a transfer object and back gives the record with its identifier nulled |
| `Mapper.ToDtoForgetsOnlyId` | src/main/java/com/hackerrank/sample/mapper/ProductMapper.java:21-30 | two records have equal transfer objects exactly when they agree on everything but the identifier |
| `Seqs.Select` | src/main/java/com/hackerrank/sample/service/ProductService.java:41-42 | the selection is never longer than its input |
| `Seqs.SelectMembership` | src/main/java/com/hackerrank/sample/service/ProductService.java:41-42 | an element is selected exactly when it occurs in the input and satisfies the predicate |
| `Seqs.SelectCount` | src/main/java/com/hackerrank/sample/service/ProductService.java:41-42 | a selected element keeps its full multiplicity; a rejected one disappears |
| `Seqs.SelectAppend` | src/main/java/com/hackerrank/sample/service/ProductService.java:41-42 | selection distributes over concatenation, so relative order is kept |
| `Seqs.SelectAll` | src/main/java/com/hackerrank/sample/service/ProductService.java:41-42 | when every element satisfies the predicate, selection returns the input unchanged |
| `Seqs.SelectIdempotent` | src/main/java/com/hackerrank/sample/repository/IProductRepository.java:55 | selecting twice with one predicate is selecting once |
| `Text.ToLower` | src/main/java/com/hackerrank/sample/service/ProductService.java:59 | the lower-cased string has the same length, each character is the lower-case of the original, and no capital letter remains |
| `Text.ToLowerIdempotent` | src/main/java/com/hackerrank/sample/service/ProductService.java:59 | lower-casing twice is lower-casing once |
| `Text.ContainsIffOccurs` | src/main/java/com/hackerrank/sample/service/ProductService.java:59 | the substring search succeeds exactly when the text occurs at some position |
| `Text.Contains` | src/main/java/com/hackerrank/sample/service/ProductService.java:59 | the empty string is contained in every string, and a contained string is no longer than its container |
| `Text.LowersTo` | src/main/java/com/hackerrank/sample/service/ProductService.java:59 | lower-casing gives a string when it gives each of its characters from the one in the same position |
| `Text.ParseUnsigned` | src/main/java/com/hackerrank/sample/service/ProductService.java:56 | the empty string does not parse, and an unsigned literal parses to a value that is not negative |
| `Text.Decimal` | src/main/java/com/hackerrank/sample/service/ProductService.java:56 | a literal with a point is worth at least its whole part |
| `Text.ParseNumber` | src/main/java/com/hackerrank/sample/service/ProductService.java:56 | the empty string does not parse; a literal with a leading minus parses to a value that is not positive, and any other literal to a value that is not negative |
| `Text.ParseFractionLiteral` | src/main/java/com/hackerrank/sample/service/ProductService.java:56 | digits, a point and digits, with at least one digit in all, parse to the decimal value they spell |
| `Text.DigitRunBeforePoint` | src/main/java/com/hackerrank/sample/service/ProductService.java:56 | in digits followed by a point, the digit run stops at the point |
| `Text.Pow10` | src/main/java/com/hackerrank/sample/service/ProductService.java:56 | a power of ten is at least 1, so the fraction scale never divides by zero |
| `Text.DigitRun` | src/main/java/com/hackerrank/sample/service/ProductService.java:56 | the length of the longest all-digit prefix: the prefix is digits and the next character is not |
| `Text.ParseUnsignedIffLiteral` | src/main/java/com/hackerrank/sample/service/ProductService.java:56 | the unsigned parse succeeds exactly on digits, or digits around one point with at least one digit |
| `Text.ParseNumberIffLiteral` | src/main/java/com/hackerrank/sample/service/ProductService.java:56 | the number parse succeeds exactly on decimal literals with an optional sign |
| `Text.ParseDigits` | src/main/java/com/hackerrank/sample/service/ProductService.java:56 | a run of digits parses to its decimal value |
| `Text.ParseSign` | src/main/java/com/hackerrank/sample/service/ProductService.java:56 | before a literal without a sign, a minus negates its value and a plus keeps it |
| `Text.UnsignedDigits` | src/main/java/com/hackerrank/sample/service/ProductService.java:56 | unsigned digits parse to their decimal value |
| `Text.DigitRunAll` | src/main/java/com/hackerrank/sample/service/ProductService.java:56 | on a string of digits the digit run is the whole string |
| `FilterEngine.LookupField` | src/main/java/com/hackerrank/sample/model/Product.java:9-15 | a key names an attribute exactly when it equals that attribute's declared name, case included |
| `FilterEngine.ValueOf` | src/main/java/com/hackerrank/sample/service/ProductService.java:53-55 | an attribute read gives null exactly for a missing identifier; a number exactly for price, rating and a present identifier, with the record's value; and a text exactly for name, image, description and specifications |
| `FilterEngine.Evaluate` | src/main/java/com/hackerrank/sample/service/ProductService.java:43-64 | evaluation succeeds exactly when the criterion can be evaluated, and then answers whether it holds; an empty key or value gives the empty-filter rejection; an unknown key gives the invalid-column rejection with the key; any other failure is a parse failure or a null identifier |
| `FilterEngine.MatchesAll` | src/main/java/com/hackerrank/sample/service/ProductService.java:42-65 | no criteria match; a successful answer is the conjunction of the criteria; when every criterion can be evaluated the answer succeeds; failures are criterion failures |
| `FilterEngine.FilterList` | src/main/java/com/hackerrank/sample/service/ProductService.java:41-66 | an empty collection gives an empty result; the filter succeeds exactly when every record's evaluation does; its result is the order-preserving selection of the records satisfying every criterion |
| `FilterEngine.FilterNoCriteria` | src/main/java/com/hackerrank/sample/service/ProductService.java:41-42 | with no criteria every record is returned, in stored order |
| `FilterEngine.FilterMembership` | src/main/java/com/hackerrank/sample/service/ProductService.java:41-66 | a record is in the result exactly when it is stored and satisfies every criterion |
| `FilterEngine.FilterCount` | src/main/java/com/hackerrank/sample/service/ProductService.java:41-66 | a matching record appears as often as it is stored; any other record is dropped |
| `FilterEngine.FilterAppend` | src/main/java/com/hackerrank/sample/service/ProductService.java:41-66 | filtering a concatenation is concatenating the filtered parts, so stored order is kept |
| `FilterEngine.MatchesAllFails` | src/main/java/com/hackerrank/sample/service/ProductService.java:42-65 | a record's evaluation fails exactly when it reaches a criterion that cannot be evaluated after only holding ones, and the failure is that criterion's |
| `FilterEngine.FailureReached` | src/main/java/com/hackerrank/sample/service/ProductService.java:42-65 | a failed evaluation failed at a criterion reached after only holding ones, with that criterion's failure |
| `FilterEngine.ReachedFailureRaised` | src/main/java/com/hackerrank/sample/service/ProductService.java:42-65 | a criterion reached after only holding ones that cannot be evaluated makes the evaluation fail |
| `FilterEngine.FilterFailsAtFirst` | src/main/java/com/hackerrank/sample/service/ProductService.java:41-66 | a failed filter raises the failure of the first record whose evaluation fails |
| `FilterEngine.FilterInvalidFirstCriterion` | src/main/java/com/hackerrank/sample/service/ProductService.java:46-48 | with a non-empty collection, an empty or unknown first criterion is always reported |
| `FilterEngine.FilterSingleRecord` | src/main/java/com/hackerrank/sample/service/ProductService.java:41-66 | a one-record collection keeps its record exactly when the record matches |
| `FilterEngine.MatchesSingleCriterion` | src/main/java/com/hackerrank/sample/service/ProductService.java:42-65 | a single criterion is evaluated on its own |
| `FilterEngine.CaseOfValueIgnored` | src/main/java/com/hackerrank/sample/service/ProductService.java:59 | on a text attribute, expected values that agree once lower-cased give the same answer |
| `FilterEngine.TextCriterionIsContains` | src/main/java/com/hackerrank/sample/service/ProductService.java:59 | on a text attribute a non-empty value is searched for in the attribute, both lower-cased |
| `FilterEngine.CaseOfAttributeIgnored` | src/main/java/com/hackerrank/sample/service/ProductService.java:59 | on a text attribute, records whose attribute texts agree once lower-cased give the same answer |
| `FilterEngine.TextCriterionIsSubstring` | src/main/java/com/hackerrank/sample/service/ProductService.java:59 | on a text attribute a criterion holds exactly when the lower-cased value occurs in the lower-cased attribute |
| `FilterEngine.NumericCriterionIsEquality` | src/main/java/com/hackerrank/sample/service/ProductService.java:55-57 | on price or rating a criterion holds exactly when the value parses to the attribute's number; an unparsable value raises the parse failure |
| `FilterExamples.FilterBallBy` | src/test/java/com/hackerrank/sample/service/ProductServiceTest.java:111-122 | on the one-record collection of the tests, one criterion keeps the record exactly when it evaluates to true |
| `FilterExamples.NumericMatchIsExact` | src/main/java/com/hackerrank/sample/service/ProductService.java:55-57 | price 10000 matches "10000" and does not match "10000.5" |
| `FilterExamples.PriceMatches` | src/main/java/com/hackerrank/sample/service/ProductService.java:55-57 | on the test record, a price criterion whose value parses to x keeps the record exactly when x is its price 10000 |
| `FilterExamples.WholeParse` | src/main/java/com/hackerrank/sample/service/ProductService.java:56 | "10000" parses to 10000 |
| `FilterExamples.HalfParse` | src/main/java/com/hackerrank/sample/service/ProductService.java:56 | "10000.5" parses to 10000.5 |
| `FilterExamples.BallNameLowered` | src/main/java/com/hackerrank/sample/service/ProductService.java:59 | the test record's name lower-cases to "balon blanco" |
| `FilterExamples.NameMatches` | src/test/java/com/hackerrank/sample/service/ProductServiceTest.java:111-122 | on the test record, a name criterion whose lower-cased value occurs in "balon blanco" keeps the record |
| `FilterExamples.NameCriterionHolds` | src/main/java/com/hackerrank/sample/service/ProductService.java:59 | a name criterion holds of any record whose lower-cased name contains the lower-cased value |
| `FilterExamples.NameSearchFindsBall` | src/test/java/com/hackerrank/sample/service/ProductServiceTest.java:111-122 | the name criterion "Blanco" keeps the test record |
| `FilterExamples.NameSearchInSmallLetters` | src/main/java/com/hackerrank/sample/service/ProductService.java:59 | the name criterion "blanco" keeps the test record |
| `FilterExamples.NameSearchInCapitals` | src/main/java/com/hackerrank/sample/service/ProductService.java:59 | the name criterion "BALON" keeps the test record |
| `FilterExamples.UnknownColumnRejected` | src/test/java/com/hackerrank/sample/service/ProductServiceTest.java:134-145 | the key "columnaInvalida" is rejected as an invalid column carrying the key |
| `FilterExamples.EmptyValueRejected` | src/main/java/com/hackerrank/sample/service/ProductService.java:46-48 | an empty value is rejected before the key is looked up |
| `FilterExamples.UnknownColumnAfterMismatchUnreported` | src/main/java/com/hackerrank/sample/service/ProductService.java:42-65 | an unknown key after a criterion that does not hold is never reported, and the record is dropped |
| `FilterExamples.MalformedNumberIsParseFailure` | src/main/java/com/hackerrank/sample/service/ProductService.java:56-62 | "abc" against price raises the parse failure, which is not a bad-request rejection |
| `Repository.Load` | src/main/java/com/hackerrank/sample/repository/IProductRepository.java:28-29 | a read fails exactly on unreadable content, with the read failure; a stored list reads back as stored; a non-empty result is the stored list, so a null or missing document reads as empty |
| `Repository.Initialized` | src/main/java/com/hackerrank/sample/repository/IProductRepository.java:23-27 | after a read the document exists; an existing one is unchanged and a missing one is an empty list |
| `Repository.LoadInitialized` | src/main/java/com/hackerrank/sample/repository/IProductRepository.java:24-29 | creating a missing document does not change what a read returns |
| `Repository.LoadSaved` | src/main/java/com/hackerrank/sample/repository/IProductRepository.java:43-46 | a saved collection reads back as saved |
| `Repository.FindFirst` | src/main/java/com/hackerrank/sample/repository/IProductRepository.java:35-40 | the search succeeds exactly at a record with the identifier that follows only records with other identifiers, and returns that record; it reports not-found exactly when every record has another identifier; otherwise it raises on a null identifier |
| `Repository.FindFirstFindsStored` | src/main/java/com/hackerrank/sample/repository/IProductRepository.java:35-40 | when every record has an identifier, the search succeeds exactly when the identifier is stored |
| `Repository.RemoveId` | src/main/java/com/hackerrank/sample/repository/IProductRepository.java:55 | removal succeeds exactly when every record has an identifier, and otherwise raises on the null; no survivor has the identifier, all have identifiers, and none is added |
| `Repository.RemoveIdKeepsOthers` | src/main/java/com/hackerrank/sample/repository/IProductRepository.java:55 | a record survives exactly when it is stored under another identifier, and as often as it is stored |
| `Repository.RemoveIdAppend` | src/main/java/com/hackerrank/sample/repository/IProductRepository.java:55 | removal from a concatenation removes from each part, so the order of the rest is kept |
| `Repository.RemoveAbsentId` | src/main/java/com/hackerrank/sample/repository/IProductRepository.java:55-57 | removing an identifier that is not stored leaves the collection unchanged |
| `Repository.RemoveIdIdempotent` | src/main/java/com/hackerrank/sample/repository/IProductRepository.java:55 | removing an identifier twice is removing it once |
| `Repository.RemoveIdUnique` | src/main/java/com/hackerrank/sample/repository/IProductRepository.java:55 | removal keeps identifiers unique |
| `Repository.RemovedNotFound` | src/main/java/com/hackerrank/sample/repository/IProductRepository.java:35-57 | after a removal, the search for the removed identifier reports not-found |
| `Repository.FindAppended` | src/main/java/com/hackerrank/sample/repository/IProductRepository.java:35-40 | a record appended after records that lack its identifier is the one the search finds |
| `Repository.ProductRepository.constructor` | src/main/java/com/hackerrank/sample/repository/IProductRepository.java:15-19 | the store starts from the given document |
| `Repository.ProductRepository.GetAll` | src/main/java/com/hackerrank/sample/repository/IProductRepository.java:21-33 | a missing document is created as an empty list; the result is the stored list, an empty list for a null document, or the read failure |
| `Repository.ProductRepository.FindById` | src/main/java/com/hackerrank/sample/repository/IProductRepository.java:35-41 | reads the collection, changing nothing but a missing document, and returns the first record with the identifier or the search failure |
| `Repository.ProductRepository.Save` | src/main/java/com/hackerrank/sample/repository/IProductRepository.java:43-50 | the document becomes exactly the given collection |
| `Repository.ProductRepository.Delete` | src/main/java/com/hackerrank/sample/repository/IProductRepository.java:52-61 | on success the document is the collection without the identifier's records and the identifier is returned; on a read failure or a null identifier nothing is saved and the failure is returned |
| `Service.MaxId` | src/main/java/com/hackerrank/sample/service/ProductService.java:120-122 | the maximum is a stored identifier and no stored identifier exceeds it |
| `Service.Increment` | src/main/java/com/hackerrank/sample/service/ProductService.java:123 | the result equals the identifier plus one modulo 2^64, that is, Java `long` addition |
| `Service.NextId` | src/main/java/com/hackerrank/sample/service/ProductService.java:120-123 | an identifier is produced exactly when every record has one; otherwise unboxing the null raises |
| `Service.NextIdFresh` | src/main/java/com/hackerrank/sample/service/ProductService.java:120-123 | below the largest `long` the new identifier exceeds every stored one: it is 1 for an empty collection and one more than a stored identifier otherwise, so it is not stored yet |
| `Service.NextIdWrapsAround` | src/main/java/com/hackerrank/sample/service/ProductService.java:120-123 | with the largest `long` stored the identifier wraps to the smallest, which can already be stored |
| `Service.Created` | src/main/java/com/hackerrank/sample/service/ProductService.java:117-125 | the created record exists exactly when every stored record has an identifier, and otherwise unboxing the null raises; its identifier is the next one (1 for an empty collection, else one more than the largest) and it has the transfer object's attributes |
| `Service.IdReusedAfterDelete` | src/main/java/com/hackerrank/sample/service/ProductService.java:120-123 | deleting the only record, with identifier 1, and creating again assigns identifier 1 once more |
| `Service.CreatedIsFresh` | src/main/java/com/hackerrank/sample/service/ProductService.java:117-127 | below the largest `long` the created record's identifier is not stored, identifiers stay unique after the append, and a search for it finds the new record |
| `Service.CreatedFirst` | src/test/java/com/hackerrank/sample/service/ProductServiceTest.java:171-177 | in an empty collection the created record gets identifier 1 and the transfer object's attributes |
| `Service.Updated` | src/main/java/com/hackerrank/sample/service/ProductService.java:157-163 | the updated record keeps the identifier and takes all six attributes from the transfer object |
| `Service.UpdatedCollection` | src/main/java/com/hackerrank/sample/service/ProductService.java:153-166 | the saved collection is the records under other identifiers in stored order, then the updated record; that record is the only one with the identifier and the one a search then finds; identifiers stay unique |
| `Service.ProductService.constructor` | src/main/java/com/hackerrank/sample/service/ProductService.java:21-25 | the service works on the given store |
| `Service.ProductService.FilterProducts` | src/main/java/com/hackerrank/sample/service/ProductService.java:38-67 | the result is the filter over the collection read, or the read failure; only a missing document is changed |
| `Service.ProductService.GetAll` | src/main/java/com/hackerrank/sample/service/ProductService.java:76-82 | the result is the collection read, or the read failure |
| `Service.ProductService.GetById` | src/main/java/com/hackerrank/sample/service/ProductService.java:92-99 | the result is the first record with the identifier, or the read or search failure |
| `Service.ProductService.Create` | src/main/java/com/hackerrank/sample/service/ProductService.java:111-132 | a missing transfer object is rejected and nothing is saved; otherwise the saved collection is the old one with the created record appended and that record is returned; every failure is a bad request |
| `Service.ProductService.Update` | src/main/java/com/hackerrank/sample/service/ProductService.java:151-171 | an absent identifier fails before anything is removed; otherwise every record with the identifier is removed and saved, then the updated record is appended, saved and returned; a missing transfer object raises after the removal has been saved |
| `Service.ProductService.Delete` | src/main/java/com/hackerrank/sample/service/ProductService.java:181-190 | an absent identifier fails before anything is removed; otherwise the records with the identifier are removed and the given identifier is returned |

## Left out

- JSON encoding and the file system are not modelled. The document is abstract state:
  missing, null, a list of records, or unreadable.
- A failed write in `save` is not modelled, nor a failure to create the file. Only a
  failed read (`ReadFailure`) is.
- Reflection (`getDeclaredField`, `setAccessible`, `field.get`) is replaced by a fixed
  table of the seven declared attribute names.
- `Double` values are modelled as exact reals. There is no rounding, NaN or negative
  zero, and an identifier converted to `double` is exact.
- `Double.parseDouble` is modelled as a parse of `[+|-]digits[.digits]` with at least one
  digit. Exponents, surrounding whitespace, hexadecimal forms, `NaN`, `Infinity` and type
  suffixes are not accepted.
- `toLowerCase` is ASCII lower-casing. Unicode and locale rules are not modelled.
- Attributes other than the identifier are never null, and neither are a criterion's key
  or value, the list of criteria or an identifier argument. A null identifier inside a
  stored record is modelled.
- Messages are not modelled. The `RuntimeException` wrapping in the service and in
  the repository's `delete` is not modelled either: the error keeps the kind of the
  original failure.
- The console output in `delete` is not modelled.
- There is no concurrency or locking: each operation runs alone.
- `ProductController` (HTTP routing and status codes) is not part of this model.
- `Service.NextIdFresh`: freshness is proved only while every stored identifier is below
  the largest `long`. At the largest value the Java addition wraps, as
  `Service.NextIdWrapsAround` shows.
- `Service.CreatedIsFresh`: this has the same restriction to identifiers below the
  largest `long`.
