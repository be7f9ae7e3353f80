/**
 * The product service's business rules, stated as what each operation does
 * to the products table. The service's methods are proved to have exactly
 * these effects.
 */
module ProductRules {
  import opened Options
  import opened Domain
  import opened Dtos

  /**
   * The entity CreateAsync builds: a given fresh Id, the payload's four
   * fields, status Active, no image, and the two clock readings it takes.
   */
  function NewProduct(id: Guid, dto: CreateProductDto, createdNow: Instant, updatedNow: Instant): Product {
    Product(id, dto.name, dto.description, dto.price, dto.category,
            Active, None, createdNow, updatedNow)
  }

  /** The in-place edit UpdateAsync applies to a loaded product. */
  function Edited(p: Product, dto: UpdateProductDto, now: Instant): Product {
    p.(name := dto.name, description := dto.description, price := dto.price,
       category := dto.category, status := dto.status, updatedAt := now)
  }

  /** The in-place edit UpdateImageAsync applies to a loaded product. */
  function WithImage(p: Product, imageUrl: string, now: Instant): Product {
    p.(imageUrl := Some(imageUrl), updatedAt := now)
  }

  /** Create: exactly one new row, under the fresh Id; every other row untouched. */
  function Created(t: Table, id: Guid, dto: CreateProductDto, createdNow: Instant, updatedNow: Instant): (t': Table)
    requires id !in t
    ensures t'.Keys == t.Keys + {id}
    ensures |t'| == |t| + 1
    ensures forall k :: k in t ==> t'[k] == t[k]
    ensures t'[id].id == id && t'[id].status == Active && t'[id].imageUrl == None
    ensures t'[id].name == dto.name && t'[id].description == dto.description
    ensures t'[id].price == dto.price && t'[id].category == dto.category
    ensures t'[id].createdAt == createdNow && t'[id].updatedAt == updatedNow
    ensures KeyedById(t) ==> KeyedById(t')
  {
    t[id := NewProduct(id, dto, createdNow, updatedNow)]
  }

  /**
   * Update: a missing Id leaves the table as it was; a present one gets the
   * five editable fields from the payload and a new modification time, while
   * its Id, image and creation time stay. No other row changes.
   */
  function Updated(t: Table, id: Guid, dto: UpdateProductDto, now: Instant): (t': Table)
    ensures t'.Keys == t.Keys
    ensures id !in t ==> t' == t
    ensures forall k :: k in t && k != id ==> t'[k] == t[k]
    ensures id in t ==>
      && t'[id].name == dto.name && t'[id].description == dto.description
      && t'[id].price == dto.price && t'[id].category == dto.category
      && t'[id].status == dto.status && t'[id].updatedAt == now
      && t'[id].id == t[id].id && t'[id].imageUrl == t[id].imageUrl
      && t'[id].createdAt == t[id].createdAt
    ensures KeyedById(t) ==> KeyedById(t')
  {
    if id in t then t[id := Edited(t[id], dto, now)] else t
  }

  /** Delete: the Id is gone afterwards and every other row is untouched. */
  function Deleted(t: Table, id: Guid): (t': Table)
    ensures t'.Keys == t.Keys - {id}
    ensures id in t ==> |t'| == |t| - 1
    ensures id !in t ==> t' == t
    ensures forall k :: k in t' ==> t'[k] == t[k]
    ensures KeyedById(t) ==> KeyedById(t')
  {
    t - {id}
  }

  /**
   * UpdateImage: a missing Id leaves the table as it was; a present one gets
   * the image reference and a new modification time and nothing else.
   */
  function ImageUpdated(t: Table, id: Guid, imageUrl: string, now: Instant): (t': Table)
    ensures t'.Keys == t.Keys
    ensures id !in t ==> t' == t
    ensures forall k :: k in t && k != id ==> t'[k] == t[k]
    ensures id in t ==>
      && t'[id].imageUrl == Some(imageUrl) && t'[id].updatedAt == now
      && t'[id].id == t[id].id && t'[id].name == t[id].name
      && t'[id].description == t[id].description && t'[id].price == t[id].price
      && t'[id].category == t[id].category && t'[id].status == t[id].status
      && t'[id].createdAt == t[id].createdAt
    ensures KeyedById(t) ==> KeyedById(t')
  {
    if id in t then t[id := WithImage(t[id], imageUrl, now)] else t
  }

  /**
   * An edit and an image upload touch disjoint fields, so in either order
   * they leave the same row, save for whichever modification time came last.
   */
  lemma EditAndImageCommute(t: Table, id: Guid, dto: UpdateProductDto, imageUrl: string, first: Instant, last: Instant)
    ensures Updated(ImageUpdated(t, id, imageUrl, first), id, dto, last)
         == ImageUpdated(Updated(t, id, dto, first), id, imageUrl, last)
  {
  }
}
