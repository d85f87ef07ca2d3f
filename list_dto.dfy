/** The paged list envelope (BaseListDto.java). */
module ListDto {
  import opened Base
  import opened Responses

  /**
   * One page of DTOs with the totals of the whole matching set. `items` is a
   * Java `List` that the no-argument constructor leaves null.
   */
  datatype PagedItemList<T> = PagedItemList(items: Option<seq<T>>, totalPages: Int32, totalElements: Int64)

  /** `BaseListDto<T>` adds nothing to the envelope but its payload type. */
  type BaseListDto<T> = ApiResponse<PagedItemList<T>>

  /** The no-argument `PagedItemList`: null items and zero totals. */
  function NewPagedItemList<T>(): (p: PagedItemList<T>)
    ensures p.items == None
    ensures p.totalPages == 0 && p.totalElements == 0
  {
    PagedItemList(None, 0, 0)
  }

  /** A fresh `BaseListDto` is a default envelope: 200, "OK", no data. */
  function NewBaseListDto<T>(): (r: BaseListDto<T>)
    ensures r.status == 200 && r.message == "OK" && r.data == None
  {
    NewApiResponse<PagedItemList<T>>()
  }

  /** The all-arguments `PagedItemList` keeps each argument in its own field. */
  lemma AllArgsPagedItemList<T>(items: Option<seq<T>>, totalPages: Int32, totalElements: Int64)
    ensures PagedItemList(items, totalPages, totalElements).items == items
    ensures PagedItemList(items, totalPages, totalElements).totalPages == totalPages
    ensures PagedItemList(items, totalPages, totalElements).totalElements == totalElements
  {
  }

  /** Lombok's `@Data` equality: two item lists are equal exactly when their three fields are. */
  lemma PagedItemListEquality<T>(a: PagedItemList<T>, b: PagedItemList<T>)
    ensures a == b <==> (a.items == b.items && a.totalPages == b.totalPages && a.totalElements == b.totalElements)
  {
  }
}
