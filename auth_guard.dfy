/**
 * The access decision of `AuthGuard.canActivate`: a fixed chain of checks
 * (public marker, token presence, blacklist, verification) that ends by
 * attaching the looked-up user to the request.
 *
 * The framework and the collaborators are parameters: the route's markers
 * are the handler-level and class-level values of the public key, the
 * blacklist is a membership predicate, the JWT verifier is a partial map
 * from token to the payload's `sub`, and the user lookup is a function.
 */
module Auth {
  import opened Options
  import BearerToken

  /** Why a request was refused; each is a distinct throw in the guard. */
  datatype Reason =
    | NoToken        // UnauthorizedException: no (or an empty) token on a protected route
    | Blacklisted    // plain Error: the token is on the blacklist
    | InvalidToken   // UnauthorizedException: the verifier rejected the token

  /** The text each rejection carries. */
  function Message(reason: Reason): string {
    match reason
    case NoToken => "Token não fornecido"
    case Blacklisted => "Sessão expirada. Faça login novamente."
    case InvalidToken => "Token inválido"
  }

  /**
   * Whether the rejection is an `UnauthorizedException`: the missing and the
   * invalid token are; the blacklist rejection is a plain `Error`.
   */
  predicate IsUnauthorized(reason: Reason) {
    !reason.Blacklisted?
  }

  /** The rejections are told apart by their message. */
  lemma ReasonsAreDistinct(a: Reason, b: Reason)
    ensures a != b ==> Message(a) != Message(b)
  {
  }

  /** What the guard decides: a public route, an authenticated user to attach, or a rejection. */
  datatype Verdict<U> = Public | Authenticated(user: U) | Denied(reason: Reason)

  /** What `canActivate` does with the verdict: resolve to `true`, or throw. */
  datatype Outcome = Granted | Thrown(reason: Reason)

  /** Resolving to `true` on the public and the authenticated verdict, throwing the reason otherwise. */
  function OutcomeOf<U>(v: Verdict<U>): Outcome {
    if v.Denied? then Thrown(v.reason) else Granted
  }

  /**
   * The collaborators the guard consults, each seen only through its result.
   * The subject type S is left open: the payload's `sub` is whatever value the
   * verifier decoded, unchecked, and it is passed on to the lookup as it is.
   */
  datatype Collaborators<!S, U> = Collaborators(
    isBlacklisted: string -> bool,      // ActivityMiddleware.isTokenBlacklisted
    verify: string -> Option<S>,        // jwtService.verifyAsync: the payload's sub, or None when it throws
    findUser: S -> U)                   // userService.findUserBy({ id: sub })

  /**
   * `Reflector.getAllAndOverride`: the first marker among the targets that is
   * defined, or none when none is.
   */
  function FirstDefined(markers: seq<Option<bool>>): (r: Option<bool>)
    ensures r.None? <==> forall i :: 0 <= i < |markers| ==> markers[i].None?
    ensures forall i :: (0 <= i < |markers| && markers[i].Some? &&
      (forall j :: 0 <= j < i ==> markers[j].None?)) ==> r == markers[i]
  {
    if markers == [] then None
    else if markers[0].Some? then markers[0]
    else FirstDefined(markers[1..])
  }

  /**
   * Whether the route is public: the handler's marker when it has one,
   * otherwise the class's; a route with neither requires authentication.
   */
  function ResolvePublic(handlerMarker: Option<bool>, classMarker: Option<bool>): (isPublic: bool)
    ensures handlerMarker.Some? ==> isPublic == handlerMarker.value
    ensures handlerMarker.None? ==> isPublic == (classMarker == Some(true))
  {
    var markers := [handlerMarker, classMarker];
    assert markers[0] == handlerMarker && markers[1] == classMarker;
    FirstDefined(markers) == Some(true)
  }

  /** JavaScript truthiness of the extracted token: defined and not the empty string. */
  predicate Present(token: Option<string>) {
    token.Some? && token.value != ""
  }

  /**
   * The guard's decision, in the order of its checks. The contract restates
   * it against the header shape itself (BearerCredential), so each outcome is
   * characterised both ways.
   */
  function Decide<S, U>(handlerMarker: Option<bool>, classMarker: Option<bool>,
                     authorization: Option<string>, c: Collaborators<S, U>): (v: Verdict<U>)
    ensures var token := BearerToken.BearerCredential(authorization);
      && (v.Public? <==> ResolvePublic(handlerMarker, classMarker))
      && (v == Denied(NoToken) <==>
            !ResolvePublic(handlerMarker, classMarker) && !Present(token))
      && (v == Denied(Blacklisted) <==>
            !ResolvePublic(handlerMarker, classMarker) && Present(token) && c.isBlacklisted(token.value))
      && (v == Denied(InvalidToken) <==>
            !ResolvePublic(handlerMarker, classMarker) && Present(token) && !c.isBlacklisted(token.value)
            && c.verify(token.value).None?)
      && (v.Authenticated? <==>
            !ResolvePublic(handlerMarker, classMarker) && Present(token) && !c.isBlacklisted(token.value)
            && c.verify(token.value).Some?)
      && (v.Authenticated? ==> v.user == c.findUser(c.verify(token.value).value))
  {
    BearerToken.ExtractTokenIsBearerCredential(authorization);
    if ResolvePublic(handlerMarker, classMarker) then Public
    else
      var token := BearerToken.ExtractToken(authorization);
      if !Present(token) then Denied(NoToken)
      else if c.isBlacklisted(token.value) then Denied(Blacklisted)
      else match c.verify(token.value)
        case None => Denied(InvalidToken)
        case Some(sub) => Authenticated(c.findUser(sub))
  }

  /** A public route is let through whatever its header and collaborators: none of them is consulted. */
  lemma PublicRouteSkipsEveryCheck<S, U>(handlerMarker: Option<bool>, classMarker: Option<bool>,
                                         authorization: Option<string>, c: Collaborators<S, U>)
    requires ResolvePublic(handlerMarker, classMarker)
    ensures Decide(handlerMarker, classMarker, authorization, c).Public?
  {
  }

  /** A handler marked public is public whatever the class says, and a handler marked private is not. */
  lemma HandlerMarkerWins<S, U>(handlerPublic: bool, classMarker: Option<bool>,
                             authorization: Option<string>, c: Collaborators<S, U>)
    ensures Decide(Some(handlerPublic), classMarker, authorization, c).Public? == handlerPublic
  {
  }

  /**
   * On a protected route without a usable token the rejection is NoToken, the
   * same for every blacklist, verifier and lookup: none of them is consulted.
   */
  lemma MissingTokenSkipsBlacklistAndVerifier<S, U>(handlerMarker: Option<bool>, classMarker: Option<bool>,
                                                    authorization: Option<string>, c: Collaborators<S, U>)
    requires !ResolvePublic(handlerMarker, classMarker)
    requires !Present(BearerToken.ExtractToken(authorization))
    ensures Decide(handlerMarker, classMarker, authorization, c) == Denied(NoToken)
  {
  }

  /** A missing header, another scheme, a bare scheme and an empty token all end in NoToken. */
  lemma HeaderShapesWithoutToken<S, U>(handlerMarker: Option<bool>, classMarker: Option<bool>,
                                    authorization: Option<string>, c: Collaborators<S, U>)
    requires !ResolvePublic(handlerMarker, classMarker)
    requires authorization.None? || !BearerToken.HasBearerPrefix(authorization.value)
             || authorization.value == BearerToken.Scheme + " "
             || BearerToken.Scheme + "  " <= authorization.value
    ensures Decide(handlerMarker, classMarker, authorization, c) == Denied(NoToken)
  {
  }

  /**
   * A blacklisted token is refused as Blacklisted before verification: the
   * verdict is the same under every verifier, whether or not it would accept the token.
   */
  lemma BlacklistPrecedesVerification<S, U>(handlerMarker: Option<bool>, classMarker: Option<bool>,
                                            authorization: Option<string>, c: Collaborators<S, U>)
    requires !ResolvePublic(handlerMarker, classMarker)
    requires Present(BearerToken.ExtractToken(authorization))
    requires c.isBlacklisted(BearerToken.ExtractToken(authorization).value)
    ensures Decide(handlerMarker, classMarker, authorization, c) == Denied(Blacklisted)
  {
  }

  /** A present, non-blacklisted token that the verifier rejects is refused as InvalidToken. */
  lemma UnverifiedTokenIsInvalid<S, U>(handlerMarker: Option<bool>, classMarker: Option<bool>,
                                    authorization: Option<string>, c: Collaborators<S, U>)
    requires !ResolvePublic(handlerMarker, classMarker)
    requires Present(BearerToken.ExtractToken(authorization))
    requires !c.isBlacklisted(BearerToken.ExtractToken(authorization).value)
    requires c.verify(BearerToken.ExtractToken(authorization).value).None?
    ensures Decide(handlerMarker, classMarker, authorization, c) == Denied(InvalidToken)
  {
  }

  /**
   * The decision looks at the collaborators only at the extracted token and
   * its subject: collaborators that agree there decide alike.
   */
  lemma DecisionConsultsOnlyTheToken<S, U>(handlerMarker: Option<bool>, classMarker: Option<bool>,
                                        authorization: Option<string>,
                                        c1: Collaborators<S, U>, c2: Collaborators<S, U>)
    requires var token := BearerToken.ExtractToken(authorization);
      token.Some? ==>
        && c1.isBlacklisted(token.value) == c2.isBlacklisted(token.value)
        && c1.verify(token.value) == c2.verify(token.value)
        && (c1.verify(token.value).Some? ==>
              c1.findUser(c1.verify(token.value).value) == c2.findUser(c1.verify(token.value).value))
    ensures Decide(handlerMarker, classMarker, authorization, c1) == Decide(handlerMarker, classMarker, authorization, c2)
  {
  }

  /**
   * `canActivate` grants exactly when the route is public or the header
   * carries a present, non-blacklisted token that verifies.
   */
  lemma GrantedIff<S, U>(handlerMarker: Option<bool>, classMarker: Option<bool>,
                      authorization: Option<string>, c: Collaborators<S, U>)
    ensures var token := BearerToken.BearerCredential(authorization);
      OutcomeOf(Decide(handlerMarker, classMarker, authorization, c)) == Granted <==>
        ResolvePublic(handlerMarker, classMarker) ||
        (Present(token) && !c.isBlacklisted(token.value) && c.verify(token.value).Some?)
  {
  }

  /** The HTTP request as the guard sees it: its `Authorization` header and the `user` slot it may fill. */
  class Request<U> {
    const authorization: Option<string>   // req.headers.authorization; the guard never writes it
    var user: Option<U>                   // req['user']; None is `undefined`

    constructor (authorization: Option<string>, user: Option<U>)
      ensures this.authorization == authorization && this.user == user
    {
      this.authorization := authorization;
      this.user := user;
    }
  }

  /** What `ExecutionContext` gives the guard: the two marker values and the request. */
  datatype ExecutionContext<U> = ExecutionContext(
    handlerMarker: Option<bool>,   // metadata of IS_PUBLIC_KEY on context.getHandler()
    classMarker: Option<bool>,     // metadata of IS_PUBLIC_KEY on context.getClass()
    request: Request<U>)           // context.switchToHttp().getRequest()

  class AuthGuard<S, U> {
    const collaborators: Collaborators<S, U>

    constructor (collaborators: Collaborators<S, U>)
      ensures this.collaborators == collaborators
    {
      this.collaborators := collaborators;
    }

    /**
     * `canActivate`: the decision of Decide, carried out step by step. Only a
     * granted, non-public request has its user written; every other path
     * leaves the request as it was.
     */
    method CanActivate(context: ExecutionContext<U>) returns (outcome: Outcome)
      modifies context.request
      ensures var v := Decide(context.handlerMarker, context.classMarker,
                              context.request.authorization, collaborators);
        && outcome == OutcomeOf(v)
        && context.request.user == (if v.Authenticated? then Some(v.user) else old(context.request.user))
    {
      var isPublic := ResolvePublic(context.handlerMarker, context.classMarker);
      if isPublic {
        return Granted;
      }

      var request := context.request;
      var token := BearerToken.ExtractToken(request.authorization);
      if !Present(token) {
        return Thrown(NoToken);
      }

      if collaborators.isBlacklisted(token.value) {
        return Thrown(Blacklisted);
      }

      var payload := collaborators.verify(token.value);
      if payload.None? {
        return Thrown(InvalidToken);
      }
      request.user := Some(collaborators.findUser(payload.value));

      return Granted;
    }
  }
}
