/**
 * The hand-off between the two services. The gateway between them is not
 * part of this model; it enters only through its contract: after checking a
 * token it forwards the token's subject as X-User-ID and its roles, written
 * as JSON, as X-User-Roles.
 */
module TrustPropagation {
  import opened Wrappers
  import RolesJson
  import AuthService
  import ProtectedService

  /** The two identity headers the gateway forwards for a verified token. */
  datatype Headers = Headers(userId: Option<string>, userRoles: Option<string>)

  function ForwardedHeaders(c: AuthService.Claims): (h: Headers)
    ensures h.userId == Some(c.sub)
    ensures h.userRoles.Some? && RolesJson.DecodeRoles(h.userRoles.value) == Some(c.roles)
  {
    RolesJson.DecodeEncode(c.roles);
    Headers(Some(c.sub), Some(RolesJson.EncodeRoles(c.roles)))
  }

  /**
   * After a successful login, the identity in the signed token, forwarded by
   * the gateway, is reported by GET / of the protected service as the same
   * username and roles the login reply showed.
   */
  lemma LoginIdentityReachesResource(store: AuthService.Store, username: string, password: Option<string>,
                                     jwtNowMs: int, responseNowMs: int, jti: string,
                                     sign: AuthService.Claims -> string, randomId: string)
    requires AuthService.Authenticate(store, username, password).Some?
    requires username != ""
    ensures
      var r := AuthService.Login(store, username, password, jwtNowMs, responseNowMs, jti, sign);
      var c := AuthService.IssueClaims(store[username], username, jwtNowMs, jti);
      var h := ForwardedHeaders(c);
      var root := ProtectedService.GetRoot(h.userId, h.userRoles, randomId);
      && r.body.token == sign(c)
      && root.Respond?
      && root.body.userInfo == ProtectedService.UserInfo(r.body.user.username, ProtectedService.RolesList(r.body.user.roles))
  {
  }
}
