/**
 * The domain layer: the Product entity, its status enumeration and the
 * shape of the products table the repository keeps.
 */
module Domain {
  import opened Options

  /** A System.Guid: 128 bits, only ever compared for equality. */
  newtype Guid = x: int | 0 <= x < 0x1_0000_0000_0000_0000_0000_0000_0000_0000

  /** A System.DateTime reading of the UTC clock, as ticks. */
  type Instant = int

  /**
   * A System.Decimal price. Decimals are exact and the service does no
   * arithmetic on them, so an exact real stands for one.
   */
  type Money = real

  datatype ProductStatus = Active | Inactive

  /** The persisted entity, one row of the products table. */
  datatype Product = Product(
    id: Guid,
    name: string,
    description: string,
    price: Money,
    category: string,
    status: ProductStatus,
    imageUrl: Option<string>,
    createdAt: Instant,
    updatedAt: Instant)

  /** The products table, keyed by primary key. */
  type Table = map<Guid, Product>

  /** Every row is stored under its own Id. */
  predicate KeyedById(t: Table) {
    forall k :: k in t ==> t[k].id == k
  }
}
