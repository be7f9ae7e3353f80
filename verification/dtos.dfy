/** The transfer objects the product service accepts and returns. */
module Dtos {
  import opened Options
  import opened Domain

  /** The creation payload: the caller cannot choose Id, Status, image or timestamps. */
  datatype CreateProductDto = CreateProductDto(
    name: string,
    description: string,
    price: Money,
    category: string)

  /** The update payload: the five editable fields. */
  datatype UpdateProductDto = UpdateProductDto(
    name: string,
    description: string,
    price: Money,
    category: string,
    status: ProductStatus)

  /** The view returned to callers: the entity's nine fields. */
  datatype ProductResponse = ProductResponse(
    id: Guid,
    name: string,
    description: string,
    price: Money,
    category: string,
    status: ProductStatus,
    imageUrl: Option<string>,
    createdAt: Instant,
    updatedAt: Instant)

  /** Reads a view back as an entity; used to state that the mapping loses nothing. */
  function AsEntity(r: ProductResponse): Product {
    Product(r.id, r.name, r.description, r.price, r.category, r.status,
            r.imageUrl, r.createdAt, r.updatedAt)
  }
}
