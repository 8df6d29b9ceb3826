/**
 * The uniform result of every server action, input validation against a schema,
 * and resolution of the signed-in user from the identity provider's answer.
 */
module SafeAction {
  import opened Wrappers
  import opened Text
  import opened Schema

  type UserId = string

  /** Exactly two variants: success with data, or failure with one message. */
  datatype ActionResult<T> = Success(data: T) | Failure(error: string)

  const Unauthorized := "Unauthorized. Please sign in."

  /**
   * `validateInput(schema, input)`: the parsed data when the schema accepts the
   * input; otherwise every issue message, in issue order, joined with ", ".
   */
  function ValidateInput<I, T>(schema: I -> SafeParse<T>, input: I): (r: ActionResult<T>)
    ensures r.Success? <==> schema(input).Parsed?
    ensures r.Success? ==> r.data == schema(input).data
    ensures r.Failure? ==> r.error == Join(schema(input).issues, ", ")
  {
    match schema(input)
    case Parsed(data) => Success(data)
    case Rejected(issues) => Failure(Join(issues, ", "))
  }

  /**
   * A failed validation reports all issues, not just the first: the error starts
   * with the first message and contains every one of them.
   */
  lemma ValidationErrorListsEveryIssue<I, T>(schema: I -> SafeParse<T>, input: I)
    requires schema(input).Rejected? && schema(input).issues != []
    ensures var r := ValidateInput(schema, input);
      && r.Failure?
      && IsPrefix(schema(input).issues[0], r.error)
      && forall i :: 0 <= i < |schema(input).issues| ==> Contains(r.error, schema(input).issues[i])
  {
    JoinKeepsEveryElement(schema(input).issues, ", ");
  }

  /** What the identity provider's `getUser()` answers: a user, an error, both or neither. */
  datatype AuthResponse = AuthResponse(user: Option<UserId>, error: Option<string>)

  /** `getAuthenticatedUser()`, with the provider's answer as input. */
  function GetAuthenticatedUser(session: AuthResponse): (r: ActionResult<UserId>)
    ensures r.Success? <==> session.error.None? && session.user.Some?
    ensures r.Success? ==> r.data == session.user.value
    ensures r.Failure? ==> r.error == Unauthorized
  {
    if session.error.Some? || session.user.None? then Failure(Unauthorized)
    else Success(session.user.value)
  }
}
