# ProductManager product service, modelled in Dafny

ProductManager is a small catalogue service. It stores products and exposes them over HTTP. Each
product has an Id, a name, a description, a price, a category, a status (Active or Inactive), an
optional image reference, a creation time and a modification time. All the business rules live in
`ProductService`. The service sits on a repository abstraction with five operations: get by Id,
filtered list, add, update and delete.

This project models that service as a state machine over the products table:

- `options.dfy`, `domain.dfy`, `dtos.dfy`: the entity, the status enumeration, the table type
  (`map<Guid, Product>`), and the create, update and response transfer objects.
- `repository.dfy`: the repository as a class. It holds the table as a `map` field, and each
  operation is one atomic change to it. `Add` and `Update` return the product they stored.
- `product_rules.dfy`: the business rules as pure functions. Each one gives the table after an
  operation, and its contract states the operation's frame: which rows and fields change, and
  that nothing else does.
- `product_service.dfy`: the service as a class that holds its repository. The four mutating
  operations are methods that follow the original step by step:
  - `Create` builds the product, adds it and maps it.
  - `Update` and `UpdateImage` load, check existence, edit, persist and map.
  - `Delete` loads, checks existence and deletes.

  Each is proved to change the table exactly as its rule says. The read operations and the
  entity-to-view mapping are functions.
- `lifecycle.dfy`: whole runs of requests in which every create gets an unused Id. In any such run,
  no row appears unless the run created it. A surviving product whose Id is never re-created keeps
  its Id and creation time. If the clock also never runs backwards, every row stays under its own
  Id, with a creation time no later than its modification time.
- `scenarios.dfy`: client methods that follow the service's unit tests.

The UTC clock (`DateTime.UtcNow`) and the Guid generator (`Guid.NewGuid`) are parameters. Each
clock reading and each fresh Id is passed in, and a create requires an Id not already in the
table. Prices are exact (`real` stands for `decimal`). No price validation exists in the original,
so none is modelled.

Note on timestamps: `CreateAsync` reads the clock twice, once for the creation time and once for
the modification time (ProductService.cs:49-50). So a new product's creation and modification
times can differ by the time between the two reads. The model takes two readings and proves only
that creation time is no later than modification time when the clock does not run backwards.

## Model

| member | source | states |
|---|---|---|
| `Repository.ProductRepository.GetById` | ProductManager.Domain/Interfaces/IProductRepository.cs:8 | Absent exactly when the Id is not in the table; otherwise the stored row, whose Id is the one asked for |
| `Repository.ProductRepository.Add` | ProductManager.Domain/Interfaces/IProductRepository.cs:10 | Inserts the product under its (unused) Id and returns it unchanged; rows stay keyed by Id |
| `Repository.ProductRepository.Update` | ProductManager.Domain/Interfaces/IProductRepository.cs:11 | Overwrites the existing row with the product's Id and returns the product unchanged |
| `Repository.ProductRepository.Delete` | ProductManager.Domain/Interfaces/IProductRepository.cs:12 | Removes exactly the row with the given Id |
| `Services.ProductService.constructor` | ProductManager.Application/Services/ProductService.cs:13-16 | The service works on the repository it is given |
| `Services.ProductService.MapToResponse` | ProductManager.Application/Services/ProductService.cs:104-118 | The view carries all nine fields verbatim: the entity is recovered exactly from it |
| `Services.ProductService.GetById` | ProductManager.Application/Services/ProductService.cs:18-26 | Null exactly when the Id is absent; otherwise a view with that Id that reads back as the stored product; reads only |
| `Services.ProductService.GetAll` | ProductManager.Application/Services/ProductService.cs:28-37 | One view per repository result, same count, same order, each reading back as its product |
| `Services.ProductService.Create` | ProductManager.Application/Services/ProductService.cs:39-56 | Table becomes `Created(old table, ...)`; returned view has the fresh Id, status Active, no image and the payload's four fields |
| `Services.ProductService.Update` | ProductManager.Application/Services/ProductService.cs:58-75 | Table becomes `Updated(old table, ...)`; null exactly when the Id was absent, else the view of the edited row |
| `Services.ProductService.Delete` | ProductManager.Application/Services/ProductService.cs:77-87 | Table becomes `Deleted(old table, id)`; returns true exactly when the Id was present |
| `Services.ProductService.UpdateImage` | ProductManager.Application/Services/ProductService.cs:89-102 | Table becomes `ImageUpdated(old table, ...)`; null exactly when the Id was absent, else the view of the edited row |
| `ProductRules.Created` | ProductManager.Application/Services/ProductService.cs:41-53 | Exactly one new key, the fresh Id, and one more row; old rows unchanged; the new row is Active, has no image, copies name, description, price and category, and takes the two clock readings |
| `ProductRules.Updated` | ProductManager.Application/Services/ProductService.cs:60-72 | Missing Id: table unchanged. Present Id: the five editable fields come from the payload and the modification time is now; Id, image and creation time are kept; other rows unchanged |
| `ProductRules.Deleted` | ProductManager.Application/Services/ProductService.cs:79-84 | The Id is absent afterwards and the table is one row smaller if it was present. A missing Id leaves the table unchanged. Other rows are unchanged |
| `ProductRules.ImageUpdated` | ProductManager.Application/Services/ProductService.cs:91-99 | Missing Id: table unchanged. Present Id: only the image reference and the modification time change; other rows unchanged |
| `ProductRules.EditAndImageCommute` | ProductManager.Application/Services/ProductService.cs:65-97 | An edit and an image update touch disjoint fields: applied in either order they give the same table |
| `Lifecycle.ApplyKeepsConsistent` | ProductManager.Application/Services/ProductService.cs:39-101 | One request with a fresh Id and a clock that does not run backwards keeps every row under its own Id, with creation time no later than modification time |
| `Lifecycle.RunKeepsConsistent` | ProductManager.Application/Services/ProductService.cs:39-101 | Any run with fresh Ids and a clock that never runs backwards keeps that invariant |
| `Lifecycle.RunOnlyCreatesRequestedIds` | ProductManager.Application/Services/ProductService.cs:39-87 | Every row after a run with fresh Ids was there before or was created by a request of the run (no partial records); no clock condition |
| `Lifecycle.RunKeepsIdentity` | ProductManager.Application/Services/ProductService.cs:58-101 | A product that survives a run with fresh Ids that never re-creates its Id keeps its Id and creation time; no clock condition |
| `Scenarios.CreateThenGetById` | ProductManager.Tests/Services/ProductServiceTests.cs:24-48 | After a create, a lookup by the new Id returns the same view: Active, no image, the payload's fields |
| `Scenarios.UpdateMissing` | ProductManager.Tests/Services/ProductServiceTests.cs:152-173 | Updating an Id that is not stored returns null |
| `Scenarios.UpdateExisting` | ProductManager.Tests/Services/ProductServiceTests.cs:106-147 | Updating "Mouse Antigo" gives "Mouse Novo" with the new description, price and modification time, and the same Id, creation time and image |
| `Scenarios.DeleteTwice` | ProductManager.Tests/Services/ProductServiceTests.cs:179-225 | Deleting a stored product returns true, and deleting it again returns false |

## Left out

- HTTP translation (ProductManager.API/Controllers/ProductsController.cs): it maps null to 404 and
  an empty upload to 400, and it holds no business rule. Its unused `updateDto` (lines 104-111)
  has no effect.
- Dependency-injection wiring, Swagger and middleware (ProductManager.API/Program.cs).
- Column length limits (ProductManager.Infrastructure/Data/AppDbContext.cs:22-38): the database
  enforces them, not the service, so the model imposes none.
- File storage (ProductManager.Application/Services/LocalStorageService.cs): disk I/O and random
  names. `UpdateImage` takes the resulting reference as a plain string.
- The filters of the repository's list query (category, price bounds, status): the concrete
  ProductRepository is not part of this model. `GetAll` takes the repository's answer as its
  parameter and models only the projection the service applies to it.
- `async`/`Task`: calls are sequential. Concurrent requests and the store's last-write-wins races
  are not modelled.
- The wall clock and Guid randomness are parameters. The model does not state that a generated
  Guid is never `Guid.Empty`; a create simply uses the Id it is given.
- Entity tracking: `UpdateAsync` and `UpdateImageAsync` mutate the loaded entity in place before
  persisting it. The model edits a copy (a datatype update) and writes it back through the
  repository's `Update`. Aliasing between the loaded object and the stored row is therefore not
  captured.
- Repository failures (store unavailable, write errors) are not modelled. Repository `Update` and
  `Delete` require the Id to be present and `Add` requires it to be absent; the service meets
  these conditions by its own existence checks and by fresh Ids.
- Price rounding: the price column is `decimal(18,2)` (ProductManager.Infrastructure/Data/AppDbContext.cs:33-35),
  so the store rounds prices to two decimals. The model keeps an exact `real` in its table, so a
  price read back (as in `Scenarios.CreateThenGetById`) equals the one written only for the
  exact in-memory table, not for the database.
- Out-of-range status values: `ProductStatus` is a C# enum, so any integer can be deserialised into
  the update payload's status and stored. The model's `ProductStatus` has exactly the two named
  values, Active and Inactive.
- ProductManager.Domain/Entities/Product.cs and the CreateProductDTO file are not part of this
  model. Their fields are taken from the service, the update and response DTOs, and the tests.
