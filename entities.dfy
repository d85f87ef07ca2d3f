/** The persisted record every entity extends (BaseEntity.java). */
module Entities {
  import opened Base

  /** A `LocalDateTime`, kept as an opaque instant; nothing here orders or compares instants. */
  type Timestamp = int

  /**
   * The base columns of an entity plus `columns`, the concrete entity's own
   * fields. `createdAt` and `updatedAt` are stamped by the persistence layer
   * and may be null before the first insert; a present `deletedAt` marks the
   * entity as soft-deleted.
   */
  datatype Entity<A> = Entity(
    blocked: bool,
    createdAt: Option<Timestamp>,
    updatedAt: Option<Timestamp>,
    deletedAt: Option<Timestamp>,
    columns: A)
  {
    predicate IsDeleted() { deletedAt.Some? }
  }

  /** `e'` is `e` with at most its deletion timestamp changed. */
  ghost predicate SameExceptDeletedAt<A>(e: Entity<A>, e': Entity<A>)
  {
    && e.blocked == e'.blocked
    && e.createdAt == e'.createdAt
    && e.updatedAt == e'.updatedAt
    && e.columns == e'.columns
  }
}
