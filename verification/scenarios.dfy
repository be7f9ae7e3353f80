/**
 * Client scenarios mirroring the service's unit tests: each builds a fresh
 * repository and service and states what the contracts let a caller conclude.
 */
module Scenarios {
  import opened Options
  import opened Domain
  import opened Dtos
  import opened Repository
  import opened Services

  /** Creating a product and looking it up again gives the same Active view without an image. */
  method CreateThenGetById(dto: CreateProductDto, id: Guid, createdNow: Instant, updatedNow: Instant)
    returns (created: ProductResponse, found: Option<ProductResponse>)
    ensures found == Some(created)
    ensures created.id == id && created.status == Active && created.imageUrl == None
    ensures created.name == dto.name && created.price == dto.price && created.category == dto.category
  {
    var repository := new ProductRepository();
    var service := new ProductService(repository);
    created := service.Create(dto, id, createdNow, updatedNow);
    found := service.GetById(id);
  }

  /** Updating a product that was never created reports not found. */
  method UpdateMissing(id: Guid, dto: UpdateProductDto, now: Instant) returns (r: Option<ProductResponse>)
    ensures r == None
  {
    var repository := new ProductRepository();
    var service := new ProductService(repository);
    r := service.Update(id, dto, now);
  }

  /** An edit replaces the editable fields but keeps the Id, image and creation time. */
  method UpdateExisting(id: Guid, created: Instant, edited: Instant) returns (r: Option<ProductResponse>)
    ensures r.Some?
    ensures r.value.name == "Mouse Novo" && r.value.description == "Descrição nova"
    ensures r.value.price == 99.90 && r.value.updatedAt == edited
    ensures r.value.id == id && r.value.createdAt == created && r.value.imageUrl == None
  {
    var repository := new ProductRepository();
    var service := new ProductService(repository);
    var original := CreateProductDto("Mouse Antigo", "Descrição antiga", 50.00, "Periféricos");
    var _ := service.Create(original, id, created, created);
    r := service.Update(id, UpdateProductDto("Mouse Novo", "Descrição nova", 99.90, "Periféricos", Active), edited);
  }

  /** Deleting twice: found the first time, not found the second. */
  method DeleteTwice(dto: CreateProductDto, id: Guid, now: Instant) returns (first: bool, second: bool)
    ensures first && !second
  {
    var repository := new ProductRepository();
    var service := new ProductService(repository);
    var _ := service.Create(dto, id, now, now);
    first := service.Delete(id);
    second := service.Delete(id);
  }
}
