/**
 * The persistence collaborator the controller is wired to: a JPA repository,
 * reduced to a map from key to entity, its paged query left uninterpreted.
 */
module Repositories {
  import opened Base
  import opened Entities

  /** One ordering criterion of a `Sort`. */
  datatype Order = Order(property: string, ascending: bool)

  /** A Spring Data `Sort`. */
  datatype Sort = Unsorted | By(orders: seq<Order>)

  /** A Spring Data `Pageable`: `Pageable.unpaged()` or `PageRequest.of(page, size, sort)`. */
  datatype Pageable = Unpaged | PageRequest(page: Int32, size: Int32, sort: Sort)

  /** A Spring Data `Page`: the fetched slice and the totals of the whole matching set. */
  datatype Page<E> = Page(content: seq<E>, totalPages: Int32, totalElements: Int64)

  class Repository<K(==), A> {
    /** The stored entities, by key. */
    var rows: map<K, Entity<A>>
    /** The keys passed to `save`, in call order. */
    ghost var saves: seq<K>
    /** `findAll(Pageable)`: how rows are sliced and counted is the library's business. */
    const findAll: (map<K, Entity<A>>, Pageable) -> Page<Entity<A>>

    constructor (rows: map<K, Entity<A>>, findAll: (map<K, Entity<A>>, Pageable) -> Page<Entity<A>>)
      ensures this.rows == rows && this.findAll == findAll && saves == []
    {
      this.rows := rows;
      this.findAll := findAll;
      saves := [];
    }

    /** `findById(id)`, an empty `Optional` being `None`. */
    method FindById(id: K) returns (found: Option<Entity<A>>)
      ensures found.Some? <==> id in rows
      ensures found.Some? ==> found.value == rows[id]
    {
      found := if id in rows then Some(rows[id]) else None;
    }

    /**
     * `save(entity)`: stores the entity under its key and returns it. The key
     * travels inside a JPA entity; here it is passed beside it.
     */
    method Save(id: K, e: Entity<A>) returns (saved: Entity<A>)
      modifies this
      ensures rows == old(rows)[id := e]
      ensures saves == old(saves) + [id]
      ensures saved == e
    {
      rows := rows[id := e];
      saves := saves + [id];
      saved := e;
    }
  }
}
