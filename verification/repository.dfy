/**
 * The product repository as an in-memory table. Each call is one atomic
 * storage operation; Add and Update hand back the product they stored.
 */
module Repository {
  import opened Options
  import opened Domain

  class ProductRepository {
    var table: Table

    /** Every row is stored under its own Id (the primary key). */
    predicate Valid()
      reads this
    {
      KeyedById(table)
    }

    constructor ()
      ensures Valid() && table == map[]
    {
      table := map[];
    }

    /** Primary-key lookup; absent when no row has this Id. */
    function GetById(id: Guid): (r: Option<Product>)
      reads this
      requires Valid()
      ensures r.None? <==> id !in table
      ensures r.Some? ==> r.value.id == id && r.value == table[id]
    {
      if id in table then Some(table[id]) else None
    }

    /** Inserts a fully populated product; the Id must not be taken. */
    method Add(product: Product) returns (r: Product)
      requires Valid() && product.id !in table
      modifies this
      ensures Valid()
      ensures table == old(table)[product.id := product]
      ensures r == product
    {
      table := table[product.id := product];
      r := product;
    }

    /** Overwrites the row with the product's Id, which must exist. */
    method Update(product: Product) returns (r: Product)
      requires Valid() && product.id in table
      modifies this
      ensures Valid()
      ensures table == old(table)[product.id := product]
      ensures r == product
    {
      table := table[product.id := product];
      r := product;
    }

    /** Removes the row with this Id, which must exist. */
    method Delete(id: Guid)
      requires Valid() && id in table
      modifies this
      ensures Valid()
      ensures table == old(table) - {id}
    {
      table := table - {id};
    }
  }
}
