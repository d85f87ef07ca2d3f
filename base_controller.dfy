/**
 * The generic CRUD controller (BaseController.java): list, details, restore
 * and soft delete over one repository, each answered with an envelope.
 */
module Controllers {
  import opened Base
  import opened Responses
  import opened ListDto
  import opened Entities
  import opened Repositories
  import opened SoftDelete

  /** Spring's `ResponseEntity`: the envelope as body, and the HTTP status of the answer. */
  datatype ResponseEntity<T> = ResponseEntity(body: ApiResponse<T>, httpStatus: Int32)

  /** `output`: wraps an envelope, unchanged, in an answer with the given HTTP status. */
  function Output<T>(data: ApiResponse<T>, httpStatus: Int32): (r: ResponseEntity<T>)
    ensures r.body == data && r.httpStatus == httpStatus
  {
    ResponseEntity(data, httpStatus)
  }

  /** A null or negative page number becomes 0; any other is kept. */
  function NormalisePage(page: Option<Int32>): (r: Int32)
    ensures r >= 0
    ensures page.Some? && page.value >= 0 ==> r == page.value
    ensures page.None? || page.value < 0 ==> r == 0
  {
    if page.Some? && page.value >= 0 then page.value else 0
  }

  /** A null or negative page size becomes 10; any other, 0 included, is kept. */
  function NormaliseSize(size: Option<Int32>): (r: Int32)
    ensures r >= 0
    ensures size.Some? && size.value >= 0 ==> r == size.value
    ensures size.None? || size.value < 0 ==> r == 10
  {
    if size.Some? && size.value >= 0 then size.value else 10
  }

  const BodyMissingMessage: string := "Le corps de la requête envoyée est nul."
  const DetailMessage: string := "Détail de l'entité"
  const RestoredMessage: string := "Entité restaurée"
  const DeletedMessage: string := "Entité supprimée"

  /**
   * `K` is the key type, `A` the concrete entity's own columns, `Dto` and
   * `DetailDto` the two DTO types. The prototype DTO instances of the source
   * are reduced to the conversions they are used for; those, the sort hook,
   * the listed type's name and the key's `toString` are supplied by the
   * concrete controller and are uninterpreted here.
   */
  class BaseController<K(==), A, Dto, DetailDto> {
    const paginated: bool
    /** `dto.getDtoFromEntity`. */
    const toDto: Entity<A> -> Dto
    /** `detailDto.getDtoFromEntity`. */
    const toDetailDto: Entity<A> -> DetailDto
    /** `dto.getListDtoFromListEntity`. */
    const toDtoList: seq<Entity<A>> -> seq<Dto>
    const repository: Repository<K, A>
    /** What the concrete controller's `getSort()` returns; `None` is null. */
    const sortHook: Option<Sort>
    /** The list message, built from the DTO's class name. */
    const listMessage: string
    /** The key's `toString`, used in messages. */
    const keyText: K -> string

    constructor (paginated: bool, toDto: Entity<A> -> Dto, toDetailDto: Entity<A> -> DetailDto,
                 toDtoList: seq<Entity<A>> -> seq<Dto>, repository: Repository<K, A>,
                 sortHook: Option<Sort>, listMessage: string, keyText: K -> string)
      ensures this.paginated == paginated && this.repository == repository
      ensures this.toDto == toDto && this.toDetailDto == toDetailDto && this.toDtoList == toDtoList
      ensures this.sortHook == sortHook && this.listMessage == listMessage && this.keyText == keyText
    {
      this.paginated := paginated;
      this.toDto := toDto;
      this.toDetailDto := toDetailDto;
      this.toDtoList := toDtoList;
      this.repository := repository;
      this.sortHook := sortHook;
      this.listMessage := listMessage;
      this.keyText := keyText;
    }

    function NotFoundMessage(id: K): string
    {
      "L'élement d'identifiant " + keyText(id) + " récherché est inexistant."
    }

    function ViewDeletedMessage(id: K): string
    {
      "L'élement d'identifiant " + keyText(id) + " récherché a été supprimé."
    }

    function AlreadyActiveMessage(id: K): string
    {
      "L'élement d'identifiant " + keyText(id) + " ne peut être restauré car il est déjà actif."
    }

    function AlreadyDeletedMessage(id: K): string
    {
      "L'élement d'identifiant " + keyText(id) + " récherché a été déjà supprimé."
    }

    /** The sort a paginated list uses: the hook's, or unsorted when it gives null. */
    function EffectiveSort(): (s: Sort)
      ensures sortHook.None? ==> s == Unsorted
      ensures sortHook.Some? ==> s == sortHook.value
    {
      if sortHook.None? then Unsorted else sortHook.value
    }

    /** The payload built from a fetched page: its converted content and its totals. */
    function PagedItems(datas: Page<Entity<A>>): PagedItemList<Dto>
    {
      PagedItemList(Some(toDtoList(datas.content)), datas.totalPages, datas.totalElements)
    }

    /** `responseBodyNotFound`: 400 with no data. */
    function ResponseBodyNotFound(): (r: ResponseEntity<Dto>)
      ensures r.httpStatus == BadRequest && r.body.status == r.httpStatus
      ensures r.body.message == BodyMissingMessage && r.body.data == None
    {
      var apiResponse := NewApiResponse<Dto>().WithStatus(BadRequest).WithMessage(BodyMissingMessage);
      Output(apiResponse, BadRequest)
    }

    /** `responseIdNotExist`: 404 with no data, the message naming the key. */
    function ResponseIdNotExist(id: K): (r: ResponseEntity<Dto>)
      ensures r.httpStatus == NotFound && r.body.status == r.httpStatus
      ensures r.body.message == NotFoundMessage(id) && r.body.data == None
    {
      var apiResponse := NewApiResponse<Dto>().WithStatus(NotFound).WithMessage(NotFoundMessage(id));
      Output(apiResponse, NotFound)
    }

    /**
     * `getListEntity`: normalises page and size, asks the fetcher for that
     * page and wraps the converted content with the fetched totals.
     */
    method GetListEntity(pageFetcher: Pageable -> Page<Entity<A>>, page: Option<Int32>, size: Option<Int32>, sort: Sort)
      returns (listDto: BaseListDto<Dto>)
      ensures listDto.status == Ok && listDto.message == listMessage
      ensures listDto.data == Some(PagedItems(pageFetcher(PageRequest(NormalisePage(page), NormaliseSize(size), sort))))
    {
      var p := page;
      if p.None? || p.value < 0 {
        p := Some(0);
      }
      var s := size;
      if s.None? || s.value < 0 {
        s := Some(10);
      }
      var pageable := PageRequest(p.value, s.value, sort);
      var datas := pageFetcher(pageable);
      listDto := NewBaseListDto<Dto>();
      listDto := listDto.WithStatus(Ok);
      listDto := listDto.WithMessage(listMessage);
      listDto := listDto.WithData(Some(PagedItems(datas)));
    }

    /**
     * `list`: always 200. Paginated, it fetches the normalised page with the
     * effective sort; otherwise it fetches everything unpaged and the page
     * and size arguments play no part.
     */
    method List(page: Int32, size: Int32) returns (r: ResponseEntity<PagedItemList<Dto>>)
      ensures r.httpStatus == Ok && r.body.status == r.httpStatus && r.body.message == listMessage
      ensures paginated ==> r.body.data == Some(PagedItems(repository.findAll(repository.rows,
        PageRequest(NormalisePage(Some(page)), NormaliseSize(Some(size)), EffectiveSort()))))
      ensures !paginated ==> r.body.data == Some(PagedItems(repository.findAll(repository.rows, Unpaged)))
    {
      var listDto: BaseListDto<Dto>;
      if paginated {
        var rows := repository.rows;
        var findAll := repository.findAll;
        var pageFetcher := (pageable: Pageable) => findAll(rows, pageable);
        var sort := sortHook;
        if sort.None? {
          sort := Some(Unsorted);
        }
        listDto := GetListEntity(pageFetcher, Some(page), Some(size), sort.value);
      } else {
        var datas := repository.findAll(repository.rows, Unpaged);
        listDto := NewBaseListDto<Dto>();
        listDto := listDto.WithStatus(Ok);
        listDto := listDto.WithMessage(listMessage);
        listDto := listDto.WithData(Some(PagedItems(datas)));
      }
      r := Output(listDto, Ok);
    }

    /**
     * `details`: 404 for an absent key, 401 for a soft-deleted entity, and
     * otherwise 200 carrying the detail DTO of the stored entity. It writes
     * nothing.
     */
    method Details(id: K) returns (r: ResponseEntity<DetailDto>)
      ensures r.body.status == r.httpStatus
      ensures LookupOf(repository.rows, id) == Absent ==>
        && r.httpStatus == NotFound && r.body.data == None
        && r.body.message == ResponseIdNotExist(id).body.message
      ensures LookupOf(repository.rows, id) == Deleted ==>
        r.httpStatus == Unauthorized && r.body.data == None && r.body.message == ViewDeletedMessage(id)
      ensures LookupOf(repository.rows, id) == Active ==>
        && r.httpStatus == Ok && r.body.message == DetailMessage
        && r.body.data == Some(toDetailDto(repository.rows[id]))
    {
      var entity := repository.FindById(id);
      var apiResponse := NewApiResponse<DetailDto>();
      if entity.None? {
        apiResponse := apiResponse.WithStatus(NotFound);
        apiResponse := apiResponse.WithMessage(NotFoundMessage(id));
        return Output(apiResponse, NotFound);
      }
      if entity.value.deletedAt.Some? {
        apiResponse := apiResponse.WithStatus(Unauthorized);
        apiResponse := apiResponse.WithMessage(ViewDeletedMessage(id));
        return Output(apiResponse, Unauthorized);
      }
      apiResponse := apiResponse.WithStatus(Ok);
      apiResponse := apiResponse.WithMessage(DetailMessage);
      apiResponse := apiResponse.WithData(Some(toDetailDto(entity.value)));
      r := Output(apiResponse, Ok);
    }

    /**
     * `restore`: 404 for an absent key and 401 for an active entity, both
     * without a write; a deleted entity has its `deletedAt` cleared, is saved
     * once, and the answer is 200 carrying the DTO of the saved entity.
     */
    method Restore(id: K) returns (r: ResponseEntity<Dto>)
      modifies repository
      ensures r.body.status == r.httpStatus
      ensures repository.rows == RestoreRows(old(repository.rows), id)
      ensures repository.saves == old(repository.saves) + RestoreSaves(old(repository.rows), id)
      ensures old(LookupOf(repository.rows, id)) == Absent ==> r == ResponseIdNotExist(id)
      ensures old(LookupOf(repository.rows, id)) == Active ==>
        r.httpStatus == Unauthorized && r.body.data == None && r.body.message == AlreadyActiveMessage(id)
      ensures old(LookupOf(repository.rows, id)) == Deleted ==>
        && repository.rows[id] == old(repository.rows[id]).(deletedAt := None)
        && r.httpStatus == Ok && r.body.message == RestoredMessage
        && r.body.data == Some(toDto(repository.rows[id]))
    {
      var entity := repository.FindById(id);
      if entity.None? {
        return ResponseIdNotExist(id);
      }
      var apiResponse := NewApiResponse<Dto>();
      if entity.value.deletedAt.None? {
        apiResponse := apiResponse.WithStatus(Unauthorized);
        apiResponse := apiResponse.WithMessage(AlreadyActiveMessage(id));
        return Output(apiResponse, Unauthorized);
      }
      var restored := entity.value.(deletedAt := None);
      var entityRestored := repository.Save(id, restored);
      apiResponse := apiResponse.WithStatus(Ok);
      apiResponse := apiResponse.WithMessage(RestoredMessage);
      apiResponse := apiResponse.WithData(Some(toDto(entityRestored)));
      r := Output(apiResponse, Ok);
    }

    /**
     * `delete` at instant `now`: 404 for an absent key and 401 for an
     * already deleted entity, both without a write; an active entity gets
     * `deletedAt := now`, is saved once, and the answer is 200 carrying the
     * DTO of the saved entity.
     */
    method Delete(id: K, now: Timestamp) returns (r: ResponseEntity<Dto>)
      modifies repository
      ensures r.body.status == r.httpStatus
      ensures repository.rows == DeleteRows(old(repository.rows), id, now)
      ensures repository.saves == old(repository.saves) + DeleteSaves(old(repository.rows), id)
      ensures old(LookupOf(repository.rows, id)) == Absent ==> r == ResponseIdNotExist(id)
      ensures old(LookupOf(repository.rows, id)) == Deleted ==>
        r.httpStatus == Unauthorized && r.body.data == None && r.body.message == AlreadyDeletedMessage(id)
      ensures old(LookupOf(repository.rows, id)) == Active ==>
        && repository.rows[id] == old(repository.rows[id]).(deletedAt := Some(now))
        && r.httpStatus == Ok && r.body.message == DeletedMessage
        && r.body.data == Some(toDto(repository.rows[id]))
    {
      var entity := repository.FindById(id);
      if entity.None? {
        return ResponseIdNotExist(id);
      }
      var apiResponse := NewApiResponse<Dto>();
      if entity.value.deletedAt.Some? {
        apiResponse := apiResponse.WithStatus(Unauthorized);
        apiResponse := apiResponse.WithMessage(AlreadyDeletedMessage(id));
        return Output(apiResponse, Unauthorized);
      }
      var deleted := entity.value.(deletedAt := Some(now));
      var entityDeleted := repository.Save(id, deleted);
      apiResponse := apiResponse.WithStatus(Ok);
      apiResponse := apiResponse.WithMessage(DeletedMessage);
      apiResponse := apiResponse.WithData(Some(toDto(entityDeleted)));
      r := Output(apiResponse, Ok);
    }

    /**
     * Serves one request by dispatching to the endpoint it names: the store
     * and the save log change as the state machine's `Step` and `StepSaves`
     * say, so the lemmas about runs of requests hold of this controller.
     */
    method Serve(req: Request<K>)
      modifies repository
      ensures repository.rows == Step(old(repository.rows), req)
      ensures repository.saves == old(repository.saves) + StepSaves(old(repository.rows), req)
    {
      match req
      case List(page, size) =>
        var _ := List(page, size);
      case Details(id) =>
        var _ := Details(id);
      case Restore(id) =>
        var _ := Restore(id);
      case Delete(id, now) =>
        var _ := Delete(id, now);
    }
  }
}
