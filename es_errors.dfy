/** Library error types and the predicates `from_es_entity_error!` generates. */
module EsErrors {

  /** A database error as the generated code distinguishes it: a unique-constraint
      violation (with the constraint name when Postgres reports one) or any other
      failure. */
  datatype DbError = UniqueViolation(constraint: string) | OtherDbError(code: int)

  /** `EntityHydrationError` (also exported under the old name `EsEntityError`). */
  datatype EntityHydrationError = UninitializedFieldError(field: string) | EventDeserialization(message: string)

  /** `EsRepoLoadError` */
  datatype EsRepoLoadError = LoadSqlx(dbError: DbError) | LoadHydration(hydration: EntityHydrationError) | LoadNotFound

  /** `EsRepoPersistError` */
  datatype EsRepoPersistError = PersistSqlx(cause: DbError) | PersistConcurrentModification

  /** `CursorDestructureError(name, variant)`: could not turn cursor `name` into `variant`. */
  datatype CursorDestructureError = CursorDestructureError(name: string, variant: string)

  /** `From<(&str, &str)>`: the pair's components become the two fields, in order. */
  function CursorDestructureErrorFrom(pair: (string, string)): (r: CursorDestructureError)
    ensures r.name == pair.0 && r.variant == pair.1
  {
    CursorDestructureError(pair.0, pair.1)
  }

  /** The library error the `from_es_entity_error!` macro matches on. The macro
      names two variants, `NotFound` and `ConcurrentModification`, that the
      hydration error above no longer has; the model follows the macro. */
  datatype EsEntityError = NotFound | ConcurrentModification | Hydration(cause: EntityHydrationError)

  /** A user error type the macro is applied to: one variant wraps the library error. */
  datatype AppError = EsEntityError(inner: EsEntityError) | AppSpecific(code: int)

  /** `From<EsEntityError>`: wraps the error in the `EsEntityError` variant. */
  function FromEsEntityError(e: EsEntityError): (r: AppError)
    ensures r.EsEntityError? && r.inner == e
  {
    EsEntityError(e)
  }

  /** `was_not_found` */
  function WasNotFound(e: AppError): (b: bool)
    ensures b <==> e == EsEntityError(NotFound)
  {
    e.EsEntityError? && e.inner.NotFound?
  }

  /** `was_concurrent_modification` */
  function WasConcurrentModification(e: AppError): (b: bool)
    ensures b <==> e == EsEntityError(ConcurrentModification)
  {
    e.EsEntityError? && e.inner.ConcurrentModification?
  }

  /** Converting a library error and then asking either predicate answers
      exactly for the matching variant; the two never hold together. */
  lemma PredicatesAfterFrom(x: EsEntityError, e: AppError)
    ensures WasNotFound(FromEsEntityError(x)) <==> x == NotFound
    ensures WasConcurrentModification(FromEsEntityError(x)) <==> x == ConcurrentModification
    ensures !(WasNotFound(e) && WasConcurrentModification(e))
    ensures e.AppSpecific? ==> !WasNotFound(e) && !WasConcurrentModification(e)
  {
  }

}
