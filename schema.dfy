/**
 * The shape of a schema's `safeParse` outcome: the parsed data, or the list of
 * issue messages in the order the schema reports them.
 */
module Schema {

  datatype SafeParse<T> = Parsed(data: T) | Rejected(issues: seq<string>)

  /** One check of a schema: no issue when it holds, its message when it does not. */
  function Check(holds: bool, message: string): (issues: seq<string>)
    ensures issues == [] <==> holds
  {
    if holds then [] else [message]
  }

  /** A schema outcome from its issue list: parsed when there are none. */
  function FromIssues<T>(data: T, issues: seq<string>): (r: SafeParse<T>)
    ensures r.Parsed? <==> issues == []
    ensures r.Parsed? ==> r.data == data
    ensures r.Rejected? ==> r.issues == issues
  {
    if issues == [] then Parsed(data) else Rejected(issues)
  }
}
