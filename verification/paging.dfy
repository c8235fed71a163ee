/** The `page` and `page_size` query parameters of the user listing: values
    that do not parse, are not positive, or (for the size) exceed the maximum
    silently fall back to the defaults. */
module Paging {
  import opened Wrappers
  import opened Decimal

  const DefaultPage: int := 1
  const DefaultPageSize: int := 10
  const MaxPageSize: int := 100

  /** The page to list: the parsed value when it is a positive integer,
      otherwise 1. */
  function PageParam(s: string): (page: int)
    ensures page >= 1
    ensures Atoi(s).Success? && Atoi(s).value > 0 ==> page == Atoi(s).value
    ensures !(Atoi(s).Success? && Atoi(s).value > 0) ==> page == DefaultPage
  {
    if s != "" && Atoi(s).Success? && Atoi(s).value > 0 then Atoi(s).value else DefaultPage
  }

  /** The page size: the parsed value when it lies in 1..100, otherwise 10
      (a size above 100 falls back to 10, not to 100). */
  function PageSizeParam(s: string): (size: int)
    ensures 1 <= size <= MaxPageSize
    ensures Atoi(s).Success? && 0 < Atoi(s).value <= MaxPageSize ==> size == Atoi(s).value
    ensures !(Atoi(s).Success? && 0 < Atoi(s).value <= MaxPageSize) ==> size == DefaultPageSize
  {
    if s != "" && Atoi(s).Success? && 0 < Atoi(s).value <= MaxPageSize then Atoi(s).value else DefaultPageSize
  }

  /** A page number written in decimal is listed as that page. */
  lemma PageParamOfDecimal(n: int)
    requires 1 <= n <= Int64Max
    ensures PageParam(Itoa(n)) == n
  {
    AtoiItoa(n);
  }

  /** Zero and negative page numbers fall back to page 1. */
  lemma NonPositivePageIsFirst(n: int)
    requires Int64Min <= n <= 0
    ensures PageParam(Itoa(n)) == DefaultPage
  {
    AtoiItoa(n);
  }

  /** A page size in 1..100 written in decimal is kept; any larger one
      (500, say) becomes 10; an absent one is 10. */
  lemma PageSizeParamOfDecimal(n: int)
    requires Int64Min <= n <= Int64Max
    ensures 1 <= n <= MaxPageSize ==> PageSizeParam(Itoa(n)) == n
    ensures n > MaxPageSize || n <= 0 ==> PageSizeParam(Itoa(n)) == DefaultPageSize
    ensures PageSizeParam("") == DefaultPageSize && PageParam("") == DefaultPage
  {
    AtoiItoa(n);
  }
}
