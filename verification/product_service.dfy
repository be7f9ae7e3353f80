/**
 * ProductService: the business layer between the HTTP controller and the
 * repository. The clock and the identifier generator are parameters: each
 * reading of the UTC clock and each freshly generated Guid is passed in.
 */
module Services {
  import opened Options
  import opened Domain
  import opened Dtos
  import opened Repository
  import ProductRules

  class ProductService {
    const repository: ProductRepository

    constructor (repository: ProductRepository)
      ensures this.repository == repository
    {
      this.repository := repository;
    }

    /** MapToResponseDTO: copies all nine fields, so the entity can be read back from the view. */
    static function MapToResponse(p: Product): (r: ProductResponse)
      ensures AsEntity(r) == p
    {
      ProductResponse(p.id, p.name, p.description, p.price, p.category,
                      p.status, p.imageUrl, p.createdAt, p.updatedAt)
    }

    /** Absent exactly when no product has this Id; otherwise the stored product's view. */
    function GetById(id: Guid): (r: Option<ProductResponse>)
      reads repository
      requires repository.Valid()
      ensures r.None? <==> id !in repository.table
      ensures r.Some? ==> r.value.id == id && AsEntity(r.value) == repository.table[id]
    {
      match repository.GetById(id)
      case None => None
      case Some(p) => Some(MapToResponse(p))
    }

    /**
     * GetAllAsync projects whatever the repository's filtered query returned,
     * one view per product, in the same order. The filtering itself belongs to
     * the repository, so its answer is the parameter here.
     */
    function GetAll(products: seq<Product>): (r: seq<ProductResponse>)
      ensures |r| == |products|
      ensures forall i :: 0 <= i < |products| ==> AsEntity(r[i]) == products[i]
    {
      if products == [] then [] else [MapToResponse(products[0])] + GetAll(products[1..])
    }

    /**
     * CreateAsync: stores a new Active product without an image under the
     * fresh Id, stamped with the two clock readings, and returns its view.
     */
    method Create(dto: CreateProductDto, id: Guid, createdNow: Instant, updatedNow: Instant)
      returns (r: ProductResponse)
      requires repository.Valid() && id !in repository.table
      modifies repository
      ensures repository.Valid()
      ensures repository.table == ProductRules.Created(old(repository.table), id, dto, createdNow, updatedNow)
      ensures r == MapToResponse(repository.table[id])
      ensures r.id == id && r.status == Active && r.imageUrl == None
      ensures r.name == dto.name && r.description == dto.description
      ensures r.price == dto.price && r.category == dto.category
    {
      var product := ProductRules.NewProduct(id, dto, createdNow, updatedNow);
      var created := repository.Add(product);
      r := MapToResponse(created);
    }

    /**
     * UpdateAsync: not found (None) and nothing changed when the Id is
     * missing; otherwise the edited product's view.
     */
    method Update(id: Guid, dto: UpdateProductDto, now: Instant) returns (r: Option<ProductResponse>)
      requires repository.Valid()
      modifies repository
      ensures repository.Valid()
      ensures repository.table == ProductRules.Updated(old(repository.table), id, dto, now)
      ensures r.None? <==> id !in old(repository.table)
      ensures r.Some? ==> r.value == MapToResponse(repository.table[id])
    {
      var existing := repository.GetById(id);
      if existing.None? {
        return None;
      }
      var product := ProductRules.Edited(existing.value, dto, now);
      var updated := repository.Update(product);
      r := Some(MapToResponse(updated));
    }

    /** DeleteAsync: true exactly when the Id was present; afterwards it is absent. */
    method Delete(id: Guid) returns (deleted: bool)
      requires repository.Valid()
      modifies repository
      ensures repository.Valid()
      ensures repository.table == ProductRules.Deleted(old(repository.table), id)
      ensures deleted <==> id in old(repository.table)
    {
      var existing := repository.GetById(id);
      if existing.None? {
        return false;
      }
      repository.Delete(id);
      deleted := true;
    }

    /**
     * UpdateImageAsync: not found (None) and nothing changed when the Id is
     * missing; otherwise only the image reference and modification time change.
     */
    method UpdateImage(id: Guid, imageUrl: string, now: Instant) returns (r: Option<ProductResponse>)
      requires repository.Valid()
      modifies repository
      ensures repository.Valid()
      ensures repository.table == ProductRules.ImageUpdated(old(repository.table), id, imageUrl, now)
      ensures r.None? <==> id !in old(repository.table)
      ensures r.Some? ==> r.value == MapToResponse(repository.table[id])
    {
      var existing := repository.GetById(id);
      if existing.None? {
        return None;
      }
      var product := ProductRules.WithImage(existing.value, imageUrl, now);
      var updated := repository.Update(product);
      r := Some(MapToResponse(updated));
    }
  }
}
