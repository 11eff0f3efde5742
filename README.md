# AuthGuard: the request gate of the TagMaster API

This project models the authentication gate of the TagMaster API, the NestJS guard
`AuthGuard` in `api/src/auth/auth.guard.ts`. On every request, the gate decides
whether the route may run. It goes through these checks in a fixed order:

1. The route's public marker. A handler-level marker overrides the class-level one.
2. A bearer token in the `Authorization` header.
3. The token blacklist.
4. JWT verification.

On success, the gate writes the looked-up user into the request.

The header form the gate reads differs from the `Bearer 1*SP b64token` of section 2.1
of RFC 6750 in three ways; it is neither a subset nor a superset of it:

- Exactly one space must follow the scheme. A second space ends an empty token, so
  `Bearer  abc` yields `""` and is then rejected as NoToken.
- The scheme is compared case-sensitively, so `bearer abc` yields no token. Section 2.1 of
  RFC 7235 makes the scheme case-insensitive.
- Any space-free string is accepted as the token, not only a b64token (`Bearer a,b` yields
  `a,b`), and whatever follows the next space is ignored (`Bearer abc def` yields `abc`).

Modules:

- `Options` (`options.dfy`) holds `Option`, which stands in for JavaScript's `undefined`-or-value.
- `JsString` (`js_string.dfy`) models ECMAScript `String.prototype.split` on a one-character
  separator, the way line 58 uses it. It comes with its inverse `Join` and a reference `FirstField`.
- `BearerToken` (`bearer_token.dfy`) holds `ExtractToken`, which is `extractTokenFromHeader` written
  as the code does it: split, destructure, compare. It also holds `BearerCredential`, a direct
  reading of the header shape ("starts with `Bearer `, token up to the next space"). A lemma proves
  the two agree on every header.
- `Auth` (`auth_guard.dfy`) holds the rejection reasons and the marker resolution
  (`FirstDefined`, the getAllAndOverride rule). It also holds the decision function `Decide`, the
  `Request` class with its mutable `user` field, and the `AuthGuard` class, whose `CanActivate`
  method carries out the checks step by step. `CanActivate` is proved equal to `Decide`.

The collaborators are abstract parameters, grouped in `Collaborators`:

- The blacklist is a membership predicate `string -> bool`.
- `jwtService.verifyAsync` is a partial verifier `string -> Option<S>`. `None` stands for a throw;
  `Some(sub)` stands for a payload with that subject. The subject type `S` is left open, because
  `payload.sub` is not checked.
- `userService.findUserBy` is a total function from the subject to a user of a generic type `U`.

The two marker values and the request come in an `ExecutionContext` value.

Facts about the code that the model keeps:

- A blacklisted token throws a plain `Error` with its own message. It is not an
  `UnauthorizedException` (`IsUnauthorized`).
- `canActivate` never resolves to `false`. It resolves to `true` or it throws, so `Outcome` is
  `Granted | Thrown(reason)`.
- The lookup result is attached without any check that it resolved.
- There is no timeout outcome.
- The empty token counts as no token, because `if (!token)` tests JavaScript truthiness. So
  `Bearer ` and `Bearer  x` are rejected with `NoToken` (`Present`, `HeaderShapesWithoutToken`).

## Model

| member | source | states |
|---|---|---|
| `JsString.Split` | api/src/auth/auth.guard.ts:58 | `split(' ')` always yields at least one field, and no field contains the separator |
| `JsString.FirstField` | api/src/auth/auth.guard.ts:58 | the first field is a separator-free prefix of the string that ends at a separator or at the end of the string |
| `JsString.FirstFieldOf` | api/src/auth/auth.guard.ts:58 | any separator-free prefix followed by a separator (or nothing) is the first field |
| `JsString.SplitHead` | api/src/auth/auth.guard.ts:58 | the split is the first field followed by the split of what comes after its separator, or just the whole string when there is no separator |
| `JsString.JoinSplit` | api/src/auth/auth.guard.ts:58 | joining the fields of a split on the separator gives back the original header |
| `JsString.SplitJoin` | api/src/auth/auth.guard.ts:58 | splitting a join of separator-free fields gives back exactly those fields, so the split is determined |
| `BearerToken.ExtractToken` | api/src/auth/auth.guard.ts:56-60 | the extracted token never contains a space |
| `BearerToken.ExtractTokenIsBearerCredential` | api/src/auth/auth.guard.ts:56-59 | header by header, the split/destructure/compare extraction equals the direct reading: a token exists only when the header starts with `Bearer ` (case-sensitive); it then runs up to the next space |
| `BearerToken.ExtractTokenSomeIff` | api/src/auth/auth.guard.ts:57-59 | a token is returned if and only if the header is present and starts with the exact scheme `Bearer` and a space; a missing header or any other scheme gives `undefined` |
| `BearerToken.ExtractTokenSecondField` | api/src/auth/auth.guard.ts:58-59 | for `Bearer <t>` followed by nothing or by a space and anything else, the token is exactly `<t>`: later fields are ignored |
| `BearerToken.EmptyTokenAfterScheme` | api/src/auth/auth.guard.ts:58-59 | `Bearer ` followed by nothing or by a further space (trailing or double space) yields the empty string, whatever comes after |
| `BearerToken.BareSchemeGivesNoToken` | api/src/auth/auth.guard.ts:58-59 | `Bearer` with no space yields `undefined` |
| `BearerToken.LowerCaseSchemeGivesNoToken` | api/src/auth/auth.guard.ts:59 | `bearer abc` yields `undefined`: the scheme comparison is case-sensitive |
| `Auth.Message` | api/src/auth/auth.guard.ts:35-50 | the three rejection texts: "Token não fornecido" (no token), "Sessão expirada. Faça login novamente." (blacklisted), "Token inválido" (invalid token) |
| `Auth.IsUnauthorized` | api/src/auth/auth.guard.ts:35-50 | the missing and the invalid token throw `UnauthorizedException`; only the blacklist throw is a plain `Error` |
| `Auth.ReasonsAreDistinct` | api/src/auth/auth.guard.ts:35-50 | the three rejections carry pairwise different messages |
| `Auth.Present` | api/src/auth/auth.guard.ts:34 | the `if (!token)` test: a token passes only when it is defined and not the empty string |
| `Auth.OutcomeOf` | api/src/auth/auth.guard.ts:29-53 | definition: the public and the authenticated verdict resolve to `true` (lines 30 and 53); a rejection throws its reason (lines 35, 38 and 50); `false` is never returned |
| `Auth.FirstDefined` | api/src/auth/auth.guard.ts:23-28 | the resolved marker is none exactly when every target's marker is undefined; otherwise it is the marker of the first target that defines one |
| `Auth.ResolvePublic` | api/src/auth/auth.guard.ts:23-30 | a defined handler marker decides alone; otherwise the route is public only if the class marker is `true`; with neither, authentication is required |
| `Auth.Decide` | api/src/auth/auth.guard.ts:19-54 | each verdict is characterised both ways against the header shape: public iff the marker resolves true; NoToken iff not public and no non-empty credential; Blacklisted iff the credential is blacklisted; InvalidToken iff it is not blacklisted and fails verification; Authenticated iff it is not blacklisted and verifies, with the user looked up by the verified `sub` |
| `Auth.PublicRouteSkipsEveryCheck` | api/src/auth/auth.guard.ts:29-30 | on a public route, any header and any collaborators give the public verdict: nothing else is consulted |
| `Auth.HandlerMarkerWins` | api/src/auth/auth.guard.ts:23-30 | a handler-level marker decides publicness whatever the class-level marker is |
| `Auth.MissingTokenSkipsBlacklistAndVerifier` | api/src/auth/auth.guard.ts:33-35 | on a protected route with a missing or empty token, every blacklist, verifier and lookup gives NoToken |
| `Auth.HeaderShapesWithoutToken` | api/src/auth/auth.guard.ts:33-35 | on a protected route, a missing header, a non-`Bearer` scheme, `Bearer ` or a double space after the scheme is rejected with NoToken |
| `Auth.BlacklistPrecedesVerification` | api/src/auth/auth.guard.ts:37-39 | a blacklisted token is rejected as Blacklisted under any verifier, whether or not that verifier would accept it |
| `Auth.UnverifiedTokenIsInvalid` | api/src/auth/auth.guard.ts:41-50 | a present, non-blacklisted token that the verifier rejects gives InvalidToken |
| `Auth.DecisionConsultsOnlyTheToken` | api/src/auth/auth.guard.ts:33-48 | two sets of collaborators that agree on the extracted token (blacklist, verifier) and on its subject (lookup) give the same verdict |
| `Auth.GrantedIff` | api/src/auth/auth.guard.ts:29-53 | `canActivate` grants iff the route is public or the credential is present, not blacklisted and verified |
| `Auth.AuthGuard.constructor` | api/src/auth/auth.guard.ts:13-17 | the guard keeps the injected collaborators |
| `Auth.AuthGuard.CanActivate` | api/src/auth/auth.guard.ts:19-54 | the step-by-step method returns the outcome of Decide; `request.user` is set to the looked-up user exactly when the verdict is Authenticated, and is left unchanged on the public path and on every rejection |

## Left out

- JWT cryptography and the signing secret (`jwtService.verifyAsync`, `jwtConstants`): the verifier is an abstract partial function from token to subject.
- The blacklist's implementation (`ActivityMiddleware`, which is not part of this model): it is an abstract membership predicate. No insertion, eviction or expiry is modelled. The source reaches it as a static member; the guard here receives it with its other collaborators.
- Auth.Decide, Auth.AuthGuard.CanActivate: a synchronous throw from `findUserBy` inside the `try` (lines 41-51) would surface as "Token inválido". The lookup here is total, so that path is not modelled. A missing `sub` claim is simply one value of the open subject type `S`, passed on to the lookup.
- Promise semantics: `canActivate` is async and `findUserBy` is not awaited (line 48), so if `findUserBy` is async (`UserService` is not part of this model), `request['user']` holds a promise. A rejected lookup promise would also escape the `try`. The lookup is modelled as a synchronous total function.
- The Nest framework (`Reflector`, `ExecutionContext`, `switchToHttp`): only what it gives the guard is modelled, namely the two marker values and the request with its header and `user` slot.
- The mapping of exceptions to HTTP responses: rejections are reason codes with their message texts.
- Concurrency between requests, timeouts and an "upstream unavailable" outcome: the code has none of them.
- `api/src/nota/nota.controller.ts` and `api/src/auth/DTO/auth.dto.ts`: endpoint glue and validation decorators with no logic of their own.
- JavaScript truthiness of a non-boolean marker value: markers are modelled as booleans. This assumes the public decorator (`public.Dec`, which is not part of this model) stores `true` or `false`.
