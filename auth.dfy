/**
 * The authentication and authorisation middleware of cmd/api/middleware.go.
 * The request is reduced to the inputs each handler reads (the
 * Authorization header, the user in the request context); the database
 * lookups are function parameters.
 */
module Auth {
  import opened Wrappers
  import Strings
  import Users
  import Tokens
  import Validator
  import Http

  /** The user stored in the request context: the anonymous user, or a user loaded by token. */
  datatype ContextUser = Anonymous | Known(user: Users.User)

  /** The anonymous user is a zero-valued user: not activated, id 0. */
  function Activated(u: ContextUser): bool
  {
    u.Known? && u.user.activated
  }

  function Id(u: ContextUser): int
  {
    if u.Known? then u.user.id else 0
  }

  /** What `Users.GetForToken` can return. */
  datatype Lookup = Found(user: Users.User) | RecordNotFound | LookupFailed

  /** How `authenticate` ends: the next handler runs with a user in the context, or an error response. */
  datatype AuthOutcome = Proceed(user: ContextUser) | InvalidAuthenticationToken | AuthServerError

  /** The token of an `Authorization` header of the form `Bearer <token>`, split on single spaces. */
  function BearerToken(header: string): (r: Option<string>)
    ensures r.Some? ==> header == "Bearer " + r.value && ' ' !in r.value
  {
    var parts := Strings.Split(header, ' ');
    if |parts| != 2 || parts[0] != "Bearer" then None
    else
      Strings.JoinSplit(header, ' ');
      assert Strings.Join(parts, ' ') == parts[0] + [' '] + parts[1];
      Some(parts[1])
  }

  /** Every space-free token is recognised after `Bearer `. */
  lemma BearerTokenOf(token: string)
    requires ' ' !in token
    ensures BearerToken("Bearer " + token) == Some(token)
  {
    var parts := ["Bearer", token];
    assert Strings.Join(parts, ' ') == "Bearer " + token;
    Strings.SplitJoin(parts, ' ');
  }

  /** A header with a second space, or a missing one, is rejected. */
  lemma BearerTokenRejects(header: string)
    requires Strings.Count(header, ' ') != 1
    ensures BearerToken(header).None?
  {
  }

  /** The decision `authenticate` takes for one request. */
  function AuthDecide(authorization: string, getForToken: string -> Lookup): (d: AuthOutcome)
    ensures authorization == "" ==> d == Proceed(Anonymous)
    ensures authorization != "" ==>
              (d.Proceed? <==> BearerToken(authorization).Some? &&
                                 |BearerToken(authorization).value| == 26 &&
                                 getForToken(BearerToken(authorization).value).Found?)
    ensures authorization != "" && d.Proceed? ==>
              d.user == Known(getForToken(BearerToken(authorization).value).user)
    ensures d == AuthServerError <==>
              authorization != "" && BearerToken(authorization).Some? &&
              |BearerToken(authorization).value| == 26 &&
              getForToken(BearerToken(authorization).value) == LookupFailed
  {
    if authorization == "" then Proceed(Anonymous)
    else match BearerToken(authorization)
      case None => InvalidAuthenticationToken
      case Some(token) =>
        if Tokens.TokenProblem(token).Some? then InvalidAuthenticationToken
        else match getForToken(token)
          case Found(u) => Proceed(Known(u))
          case RecordNotFound => InvalidAuthenticationToken
          case LookupFailed => AuthServerError
  }

  /** A malformed header, or a token that is not 26 bytes, is refused before any lookup. */
  lemma RejectedBeforeLookup(authorization: string, g1: string -> Lookup, g2: string -> Lookup)
    requires authorization != ""
    requires BearerToken(authorization).None? || |BearerToken(authorization).value| != 26
    ensures AuthDecide(authorization, g1) == AuthDecide(authorization, g2) == InvalidAuthenticationToken
  {
  }

  /** A well-formed bearer header hands the token itself to the lookup. */
  lemma WellFormedHeaderLooksUp(token: string, getForToken: string -> Lookup)
    requires ' ' !in token && |token| == 26
    ensures getForToken(token).Found? ==> AuthDecide("Bearer " + token, getForToken) == Proceed(Known(getForToken(token).user))
    ensures getForToken(token) == RecordNotFound ==> AuthDecide("Bearer " + token, getForToken) == InvalidAuthenticationToken
  {
    BearerTokenOf(token);
  }

  /** `authenticate`: adds `Vary: Authorization`, then decides as `AuthDecide`. */
  method Authenticate(w: Http.ResponseWriter, authorization: string, getForToken: string -> Lookup)
    returns (d: AuthOutcome)
    modifies w
    ensures w.header == Http.HeaderAdd(old(w.header), "Vary", "Authorization")
    ensures w.status == old(w.status)
    ensures d == AuthDecide(authorization, getForToken)
  {
    w.Add("Vary", "Authorization");
    if authorization == "" {
      return Proceed(Anonymous);
    }
    var headerParts := Strings.Split(authorization, ' ');
    if |headerParts| != 2 || headerParts[0] != "Bearer" {
      return InvalidAuthenticationToken;
    }
    var token := headerParts[1];
    var v := new Validator.Validator();
    Tokens.ValidateTokenPlaintext(v, token);
    if !v.Valid() {
      return InvalidAuthenticationToken;
    }
    match getForToken(token)
    case Found(u) =>
      return Proceed(Known(u));
    case RecordNotFound =>
      return InvalidAuthenticationToken;
    case LookupFailed =>
      return AuthServerError;
  }

  /** How a handler wrapped in the `require…` middleware ends. */
  datatype Decision = Next | AuthenticationRequired | InactiveAccount | NotPermitted | ServerError

  /** `requireAuthenticatedUser(next)`, where `next` is what the wrapped handler would decide. */
  function RequireAuthenticatedUser(user: ContextUser, next: Decision): (d: Decision)
    ensures user.Anonymous? ==> d == AuthenticationRequired
    ensures user.Known? ==> d == next
  {
    if user.Anonymous? then AuthenticationRequired else next
  }

  /** `requireActivatedUser(next)`: the activation check, wrapped in `requireAuthenticatedUser`. */
  function RequireActivatedUser(user: ContextUser, next: Decision): (d: Decision)
    ensures user.Anonymous? ==> d == AuthenticationRequired
    ensures user.Known? && !user.user.activated ==> d == InactiveAccount
    ensures user.Known? && user.user.activated ==> d == next
  {
    RequireAuthenticatedUser(user, if !Activated(user) then InactiveAccount else next)
  }

  /** `requirePermission(code, next)`; `getAllForUser` is `Permissions.GetAllForUser`, `None` on a database error. */
  function RequirePermission(code: string, user: ContextUser, getAllForUser: int -> Option<seq<string>>,
                             next: Decision): (d: Decision)
    ensures user.Anonymous? ==> d == AuthenticationRequired
    ensures user.Known? && !user.user.activated ==> d == InactiveAccount
    ensures user.Known? && user.user.activated ==>
              d == match getAllForUser(user.user.id)
                   case None => ServerError
                   case Some(p) => if code in p then next else NotPermitted
  {
    var inner := match getAllForUser(Id(user))
                 case None => ServerError
                 case Some(p) => if code in p then next else NotPermitted;
    RequireActivatedUser(user, inner)
  }

  /** The wrapped handler runs exactly when the user is known, activated and holds the code. */
  lemma PermissionGate(code: string, user: ContextUser, getAllForUser: int -> Option<seq<string>>)
    ensures RequirePermission(code, user, getAllForUser, Next) == Next <==>
              user.Known? && user.user.activated && getAllForUser(user.user.id).Some? &&
              code in getAllForUser(user.user.id).value
  {
  }
}
