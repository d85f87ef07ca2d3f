# Soft-delete controller of Hmd-Boot-Starter, in Dafny

Hmd-Boot-Starter is a Spring library of base classes for REST CRUD endpoints.
This project models its generic controller, `BaseController`. The controller
serves four endpoints over a JPA repository: a paged list, details, soft
delete and restore. Every answer is an `ApiResponse` envelope with `status`,
`message` and `data`. An entity is soft-deleted when its `deletedAt`
timestamp is set. It is never removed from the store.

Layout, one module per file:

- `base.dfy` (`Base`): `Option` for Java's nullable references, and the
  `Int32`/`Int64` ranges of Java's `int` and `long`.
- `responses.dfy` (`Responses`): the `ApiResponse` envelope, its defaults and
  its setters, plus the HTTP status codes used.
- `list_dto.dfy` (`ListDto`): `BaseListDto` and its `PagedItemList` payload.
- `error_dto.dfy` (`ErrorDtos`): the default error envelope.
- `entities.dfy` (`Entities`): the `BaseEntity` record: `blocked`,
  `createdAt`, `updatedAt`, `deletedAt`, and the concrete entity's own columns.
- `repositories.dfy` (`Repositories`): the repository as a class whose state is
  a map from key to entity. A ghost log records the keys passed to `save`.
  Its paged `findAll` is an uninterpreted function, and `Pageable`, `Page` and
  `Sort` are plain data.
- `soft_delete.dfy` (`SoftDelete`): the state machine on the value of the
  store. It says which entry each operation changes, how, and which keys it
  saves. Its lemmas cover sequences of requests.
- `base_controller.dfy` (`Controllers`): the `BaseController` class.
  `details` and `list` are read-only methods. `restore` and `delete` change
  the repository. Each returns a `ResponseEntity`: the envelope plus the HTTP
  status handed to `output`.

Foreign collaborators and inputs are values given to the constructor. They
are uninterpreted here:

- the DTO conversions (`getDtoFromEntity` of the DTO and the detail DTO, and
  `getListDtoFromListEntity`);
- the value of the `getSort()` hook;
- the list message, which the source builds from the DTO's class name;
- the key's `toString`.

The repository's paged `findAll` is a function of the stored map and the
`Pageable`. The clock reading used by `delete` is the parameter `now`.

The messages are the code's French texts. `ErrorDto` keeps status 200,
because its constructor only sets the message. `list` builds its page
fetcher inline from `repository.findAll`.

## Model

| member | source | states |
|---|---|---|
| Responses.ApiResponse.WithStatus | src/main/java/com/hmd007/hmdbootstarter/response/ApiResponse.java:16-25 | `setStatus` sets the status and leaves the message and data as they were |
| Responses.ApiResponse.WithMessage | src/main/java/com/hmd007/hmdbootstarter/response/ApiResponse.java:16-26 | `setMessage` sets the message and leaves the status and data as they were |
| Responses.ApiResponse.WithData | src/main/java/com/hmd007/hmdbootstarter/response/ApiResponse.java:16-27 | `setData` sets the payload and leaves the status and message as they were |
| Responses.NewApiResponse | src/main/java/com/hmd007/hmdbootstarter/response/ApiResponse.java:19-27 | a default envelope has status 200, message "OK" and no data |
| Responses.AllArgsConstructor | src/main/java/com/hmd007/hmdbootstarter/response/ApiResponse.java:18-27 | the all-arguments constructor stores status, message and data exactly as given |
| Responses.SettersBuildAllArgs | src/main/java/com/hmd007/hmdbootstarter/response/ApiResponse.java:16-27 | a default envelope filled by the three setters equals the all-arguments envelope with the same values |
| ListDto.NewPagedItemList | src/main/java/com/hmd007/hmdbootstarter/dto/BaseListDto.java:23-28 | a no-argument `PagedItemList` has null items, `totalPages` 0 and `totalElements` 0 |
| ListDto.NewBaseListDto | src/main/java/com/hmd007/hmdbootstarter/dto/BaseListDto.java:19-20 | a fresh `BaseListDto` is a default envelope: 200, "OK", no data |
| ListDto.AllArgsPagedItemList | src/main/java/com/hmd007/hmdbootstarter/dto/BaseListDto.java:23-28 | the all-arguments `PagedItemList` keeps items, `totalPages` and `totalElements` as given |
| ListDto.PagedItemListEquality | src/main/java/com/hmd007/hmdbootstarter/dto/BaseListDto.java:23-28 | two item lists are equal exactly when items, `totalPages` and `totalElements` are all equal |
| ErrorDtos.NewErrorDto | src/main/java/com/hmd007/hmdbootstarter/dto/ErrorDto.java:5-10 | a fresh `ErrorDto` has message "Une erreur est survenue!", still has status 200 and no data, and differs from a default envelope in the message alone |
| Controllers.Output | src/main/java/com/hmd007/hmdbootstarter/controllers/BaseController.java:67-69 | `output` passes the envelope through unchanged, with the given HTTP status |
| Controllers.NormalisePage | src/main/java/com/hmd007/hmdbootstarter/controllers/BaseController.java:105-107 | a null or negative page becomes 0; a page of 0 or more is kept; the result is never negative |
| Controllers.NormaliseSize | src/main/java/com/hmd007/hmdbootstarter/controllers/BaseController.java:110-112 | a null or negative size becomes 10; a size of 0 or more, 0 included, is kept |
| Controllers.BaseController.constructor | src/main/java/com/hmd007/hmdbootstarter/controllers/BaseController.java:46-51 | the controller keeps the pagination flag, the conversions and the repository it is built with |
| Controllers.BaseController.EffectiveSort | src/main/java/com/hmd007/hmdbootstarter/controllers/BaseController.java:142-145 | a null `getSort()` is replaced by unsorted; any other sort is used as given |
| Controllers.BaseController.ResponseBodyNotFound | src/main/java/com/hmd007/hmdbootstarter/controllers/BaseController.java:75-80 | a missing body gives an answer with HTTP status 400, envelope status 400, the fixed message and no data |
| Controllers.BaseController.ResponseIdNotExist | src/main/java/com/hmd007/hmdbootstarter/controllers/BaseController.java:86-91 | an unknown key gives HTTP status 404, envelope status 404, the not-found message naming the key, and no data |
| Controllers.BaseController.GetListEntity | src/main/java/com/hmd007/hmdbootstarter/controllers/BaseController.java:102-126 | the page and size are normalised before the fetch; the envelope has status 200, the list message, the batch conversion of the fetched content and the fetched totals |
| Controllers.BaseController.List | src/main/java/com/hmd007/hmdbootstarter/controllers/BaseController.java:134-159 | always 200 in both the answer and the envelope; paginated, it fetches the normalised page with the effective sort; unpaginated, it fetches `Unpaged`, whatever page and size were given; items are the batch conversion of the content and the totals are copied; it writes nothing |
| Controllers.BaseController.Details | src/main/java/com/hmd007/hmdbootstarter/controllers/BaseController.java:166-187 | an absent key gives 404 with the same message as `responseIdNotExist` and no data; a deleted entity gives 401 and no data; an active one gives 200 with its detail DTO; the envelope status equals the HTTP status; it writes nothing |
| Controllers.BaseController.Restore | src/main/java/com/hmd007/hmdbootstarter/controllers/BaseController.java:195-216 | an absent key gives exactly `responseIdNotExist`; an active entity gives 401 with no data; neither writes. A deleted entity has `deletedAt` cleared, every other field and entry kept, is saved exactly once, and gets 200 with the DTO of the saved entity |
| Controllers.BaseController.Delete | src/main/java/com/hmd007/hmdbootstarter/controllers/BaseController.java:224-245 | an absent key gives exactly `responseIdNotExist`; a deleted entity gives 401 with no data; neither writes. An active entity gets `deletedAt := now`, every other field and entry kept, is saved exactly once, and gets 200 with the DTO of the saved entity |
| Controllers.BaseController.Serve | src/main/java/com/hmd007/hmdbootstarter/controllers/BaseController.java:134-245 | serving one request of any kind changes the store and the save log exactly as the state machine's single step says, so the facts about runs of requests hold of the controller |
| Repositories.Repository.FindById | src/main/java/com/hmd007/hmdbootstarter/controllers/BaseController.java:168 | the lookup finds an entity exactly when the key is stored, and then it is the stored entity |
| Repositories.Repository.Save | src/main/java/com/hmd007/hmdbootstarter/controllers/BaseController.java:211 | a save stores the entity under its key, logs that key once, and returns the entity |
| SoftDelete.LookupOf | src/main/java/com/hmd007/hmdbootstarter/controllers/BaseController.java:168-181 | every key is in exactly one of three states: absent, stored and deleted (`deletedAt` present), or stored and active |
| SoftDelete.RestoreRows | src/main/java/com/hmd007/hmdbootstarter/controllers/BaseController.java:204-211 | restore keeps the key set and every other entry; the entry under the key keeps all fields but `deletedAt` and ends active; the store is unchanged unless the entry was deleted |
| SoftDelete.RestoreSaves | src/main/java/com/hmd007/hmdbootstarter/controllers/BaseController.java:199-211 | restore saves the key exactly once when the entry was deleted, and saves nothing otherwise |
| SoftDelete.DeleteRows | src/main/java/com/hmd007/hmdbootstarter/controllers/BaseController.java:233-240 | delete keeps the key set and every other entry; the entry under the key keeps all fields but `deletedAt` and ends deleted, at `now` when it was active; the store is unchanged unless the entry was active |
| SoftDelete.DeleteSaves | src/main/java/com/hmd007/hmdbootstarter/controllers/BaseController.java:228-240 | delete saves the key exactly once when the entry was active, and saves nothing otherwise |
| SoftDelete.DeleteThenRestore | src/main/java/com/hmd007/hmdbootstarter/controllers/BaseController.java:196-245 | deleting an active entity and then restoring it gives back the original store |
| SoftDelete.RestoreThenDelete | src/main/java/com/hmd007/hmdbootstarter/controllers/BaseController.java:196-245 | restoring a deleted entity and deleting it again at its old instant gives back the original store |
| SoftDelete.DeleteThenLookup | src/main/java/com/hmd007/hmdbootstarter/controllers/BaseController.java:177-181 | after delete, a stored key is in the deleted state, so `details` answers 401 and not 404 |
| SoftDelete.RestoreThenLookup | src/main/java/com/hmd007/hmdbootstarter/controllers/BaseController.java:177-187 | after restore, a stored key is active, so `details` answers 200 |
| SoftDelete.StepSavesIffChanged | src/main/java/com/hmd007/hmdbootstarter/controllers/BaseController.java:134-245 | a single request saves at most once, and it saves exactly when it changes the store |
| SoftDelete.RunKeepsEveryEntity | src/main/java/com/hmd007/hmdbootstarter/controllers/BaseController.java:196-245 | after any sequence of requests, the same keys are stored, and no field other than `deletedAt` has changed |
| SoftDelete.RunSavesOnlyStoredKeys | src/main/java/com/hmd007/hmdbootstarter/controllers/BaseController.java:134-245 | any sequence of requests saves at most once per request and only under keys already stored; if nothing was saved, the store is unchanged |
| SoftDelete.DeleteTwiceSavesOnce | src/main/java/com/hmd007/hmdbootstarter/controllers/BaseController.java:225-245 | a repeated delete saves nothing the second time and leaves the store as the first delete left it |
| SoftDelete.RestoreTwiceSavesOnce | src/main/java/com/hmd007/hmdbootstarter/controllers/BaseController.java:196-216 | a repeated restore saves nothing the second time and leaves the store as the first restore left it |

## Left out

- Spring MVC routing, the mapping annotations and `HttpStatus`: statuses are plain integers, and `ResponseEntity` is reduced to body and status.
- `PageRequest.of` argument checks: the model builds the request unconditionally and assumes nothing about what the library does with its arguments. So for `size == 0` the model's `List` answers 200 with whatever `findAll` returns, where the library may raise before the fetch.
- Bounds on the fetched page: nothing bounds `items` by the page size or ties it to `totalElements`. Both come from the foreign `findAll`, and the code only copies them.
- How `findAll` slices rows and computes `totalPages` and `totalElements`: foreign, so it is an uninterpreted function of the stored map and the `Pageable`.
- Hibernate's `@CreationTimestamp`/`@UpdateTimestamp` stamping: `createdAt` and `updatedAt` are never touched, and `save` returns the entity it was given.
- `LocalDateTime.now()`: the clock reading is the parameter `now` of `Delete`.
- `BaseDto`: abstract in the source. Its conversions are uninterpreted function values. `convertToEntity` is not used by the controller and is not modelled.
- `getLoginRequest`: it reads a servlet request attribute.
- `HmdBootStarterApplication.main`: application bootstrap.
- The list message built by reflection from the DTO's class name is an opaque string, and the key's `toString` is an opaque function.
- Java generics and unchecked casts: one key type, one entity type and two DTO types are type parameters of the controller class.
- `getSort()` is modelled as a fixed value chosen by the concrete controller, not as a call that could vary from one list request to the next.
- Aliasing: the source mutates the fetched entity object in place before saving it. Other references to that object, such as the persistence context, would see the change. The model changes a copy of the value, and only `save` writes to the store.
- Exceptions raised by the persistence layer and races between concurrent requests on one key: the model runs each request to completion, alone.
- Null messages: the envelope's `message` is modelled as a non-null string.
- Serialization (`Serializable`, `serialVersionUID`) and the generated `toString`.
