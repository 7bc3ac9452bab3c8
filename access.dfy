/** The `admin_required` gate in front of admin-only handlers. */
module Access {
  import opened Models

  /** Who makes the request: nobody logged in, or a logged-in account. */
  datatype Principal = Anonymous | Authenticated(user: User)

  /** What the wrapped route answers: a 403 abort, or the handler's own
      result. */
  datatype Response<T> = Forbidden | Ran(result: T)

  predicate IsAdmin(who: Principal) {
    who.Authenticated? && who.user.role == "admin"
  }

  /** The decorated handler: a request that is not authenticated, or whose
      account's role is not exactly `admin`, is refused with 403 and the
      handler never runs; otherwise the handler's result is returned
      untouched. The role is only read once the request is known to be
      authenticated. */
  function AdminRequired<A, T>(handler: A -> T, who: Principal, args: A): (r: Response<T>)
    ensures r == Forbidden <==> !IsAdmin(who)
    ensures r != Forbidden ==> r == Ran(handler(args))
  {
    if !who.Authenticated? || who.user.role != "admin" then Forbidden
    else Ran(handler(args))
  }

  /** An account as registration creates it carries the default role and is
      therefore refused by the gate. */
  lemma RegisteredUserRefused<A, T>(handler: A -> T, id: int, name: string, hash: string, args: A)
    ensures AdminRequired(handler, Authenticated(User(id, name, hash, DefaultRole)), args) == Forbidden
  {
  }
}
