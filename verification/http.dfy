/**
 * Requests and responses of the JSON API, and the session that carries the
 * logged-in user's id between requests.
 */
module Http {
  import opened Wrappers
  import opened Json
  import opened Schema
  import opened Storage

  /** What a response carries. User records are sent as JSON objects. */
  datatype Payload =
    | NoContent
    | Text(text: string)
    | UserBody(fields: Object)
    | ProductBody(product: Product)
    | ProductList(products: seq<Product>)
    | IssueList(issues: seq<Issue>)
    | MessageBody(message: string)

  datatype Response = Response(status: nat, payload: Payload)

  /** The user id that `serializeUser` stored in the session, if any. */
  type Session = Option<nat>

  /** The effect of handling one request. */
  datatype Reply = Reply(store: Store, session: Session, response: Response)

  const Unauthorized: Response := Response(401, Text("Unauthorized"))

  /** What Express's default error handler sends for an error passed to `next`. */
  const ServerError: Response := Response(500, Text("Internal Server Error"))

  /**
   * `deserializeUser`: the session's user as currently stored, if the session
   * names one that exists. A session naming a deleted user is not a logged-out
   * one: see `StaleSession`.
   */
  function CurrentUser(s: Store, session: Session): (r: Option<User>)
    ensures r.Some? <==> session.Some? && session.value in s.users
    ensures r.Some? ==> r.value == s.users[session.value]
  {
    if session.Some? && session.value in s.users then Some(s.users[session.value]) else None
  }

  /**
   * A session whose user row no longer exists. `deserializeUser` then hands
   * passport an undefined user, passport fails the request with "Failed to
   * deserialize user out of session", and Express answers 500 before any route
   * runs.
   */
  predicate StaleSession(s: Store, session: Session) {
    session.Some? && session.value !in s.users
  }

  function OptionalText(v: Option<string>): Json {
    if v.Some? then JString(v.value) else JNull
  }

  /** A `users` row as the JSON object the driver returns. */
  function UserJson(u: User): Object {
    map["id" := JNumber(u.id as real),
        "username" := JString(u.username),
        "password" := JString(u.password),
        "firstName" := OptionalText(u.firstName),
        "lastName" := OptionalText(u.lastName),
        "email" := OptionalText(u.email)]
  }

  /** `const { password, ...userWithoutPassword } = user`: every column but the digest. */
  function PublicUser(u: User): (fields: Object)
    ensures "password" !in fields
    ensures fields.Keys == {"id", "username", "firstName", "lastName", "email"}
    ensures fields["username"] == JString(u.username) && fields["id"] == JNumber(u.id as real)
    ensures fields["firstName"] == OptionalText(u.firstName)
    ensures fields["lastName"] == OptionalText(u.lastName)
    ensures fields["email"] == OptionalText(u.email)
  {
    Omit(UserJson(u), "password")
  }

  /** No user record in the response carries a password field. */
  predicate HidesDigest(r: Response) {
    r.payload.UserBody? ==> "password" !in r.payload.fields
  }
}
