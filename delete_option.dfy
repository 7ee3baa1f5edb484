/** The repository's `delete` option: no deletion, soft deletion with extra
    include-deleted queries, or soft deletion without them. */
module DeleteOptions {
  import opened Wrappers

  datatype DeleteOption = No | Soft | SoftWithoutQueries

  /** The suffix of the queries that also return deleted rows. */
  function IncludeDeletionFnPostfix(d: DeleteOption): (r: string)
    ensures r == "_include_deleted" <==> d != No
    ensures r == "" <==> d == No
  {
    match d
    case Soft | SoftWithoutQueries => "_include_deleted"
    case No => ""
  }

  /** The condition appended to queries that skip deleted rows. */
  function NotDeletedCondition(d: DeleteOption): (r: string)
    ensures r == " AND deleted = FALSE" <==> IsSoft(d)
    ensures r == "" <==> !IsSoft(d)
  {
    match d
    case Soft | SoftWithoutQueries => " AND deleted = FALSE"
    case No => ""
  }

  predicate IsSoft(d: DeleteOption)
    ensures IsSoft(d) <==> d != No
  {
    d.Soft? || d.SoftWithoutQueries?
  }

  /** darling's `unknown_value` error, carrying the rejected text. */
  datatype UnknownValue = UnknownValue(value: string)

  /** `from_str`: exactly the three option names are accepted. */
  function FromStr(s: string): (r: Result<DeleteOption, UnknownValue>)
    ensures r.Err? <==> s !in {"no", "soft", "soft_without_queries"}
    ensures r.Err? ==> r.error == UnknownValue(s)
  {
    if s == "no" then Ok(No)
    else if s == "soft" then Ok(Soft)
    else if s == "soft_without_queries" then Ok(SoftWithoutQueries)
    else Err(UnknownValue(s))
  }

  /** The option's name in the attribute. */
  function Name(d: DeleteOption): string
  {
    match d
    case No => "no"
    case Soft => "soft"
    case SoftWithoutQueries => "soft_without_queries"
  }

  /** Every option parses back from its name, and every accepted name is one
      option's name. */
  lemma FromStrRoundTrip(d: DeleteOption, s: string)
    ensures FromStr(Name(d)) == Ok(d)
    ensures FromStr(s).Ok? ==> Name(FromStr(s).value) == s
  {
  }

  /** The default is `No`. */
  function Default(): (d: DeleteOption)
    ensures !IsSoft(d)
  {
    No
  }
}
