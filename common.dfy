/** Shared vocabulary of the restaurant back end: identifiers, Java's `int`,
    nullable references, and the single failure kind of the domain
    (an `IllegalArgumentException` with a reason). */
module Common {

  // Database surrogate keys (Java `Long`); they are only compared, never computed.
  type TableId = int
  type GroupId = int
  type OrderId = int
  type MenuId = int
  type MenuGroupId = int
  type ProductId = int
  type MenuProductSeq = int

  /** Exact money (a `BigDecimal` amount expressed in its smallest unit). */
  type Money = int

  /** Java's 32-bit `int`, used for the number of guests. */
  newtype int32 = x: int | -0x8000_0000 <= x < 0x8000_0000

  /** A nullable reference: `None` is Java's `null`. */
  datatype Option<+T> = None | Some(value: T)

  /** Why a domain rule refused an operation. Every one of these is thrown
      as an `IllegalArgumentException` by the source. */
  datatype Reason =
    | GroupedTableCannotBeEmptied
    | OrderInProgress
    | TableAlreadyGrouped
    | EmptyTableGuests
    | NegativeGuests
    | PriceNullOrNegative
    | PriceAboveProductsTotal
    | TableIdsMismatch
    | TooFewTables
    | TableNotEmpty

  /** Outcome of an operation that returns nothing (`void`) or throws. */
  datatype Outcome = Pass | Fail(reason: Reason)

  /** Outcome of an operation that returns a value or throws. */
  datatype Result<+T> = Success(value: T) | Failure(reason: Reason) {
    function ToOutcome(): Outcome {
      match this
      case Success(_) => Pass
      case Failure(e) => Fail(e)
    }
  }

  /** No element occurs twice. */
  predicate Distinct<T(==)>(s: seq<T>) {
    forall i, j :: 0 <= i < |s| && 0 <= j < |s| && i != j ==> s[i] != s[j]
  }
}
