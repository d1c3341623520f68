/**
 * The login service: a fixed credential table, the credential check, the
 * claim set the token carries and the reply to POST /login.
 *
 * Signing is a parameter `sign`: the model never looks inside a token.
 * Clock readings (milliseconds since the epoch) and fresh identifiers are
 * parameters too.
 */
module AuthService {
  import opened Wrappers

  /** One row of the credential table. */
  datatype User = User(password: string, uid: string, role: string)

  /** The credential table, keyed by username. */
  type Store = map<string, User>

  /** Lifetime of a token, in seconds (`'1h'`). */
  const TokenLifetime: int := 3600

  /** Delay before a token becomes valid, in seconds (`"1 seconds"`). */
  const NotBeforeDelay: int := 1

  /**
   * The table the service builds at start-up; `uid1`, `uid2`, `uid3` are the
   * identifiers drawn for the three users.
   */
  function Users(uid1: string, uid2: string, uid3: string): (store: Store)
    ensures store.Keys == {"user1", "user2", "user3"}
    ensures forall name :: name in store ==>
      store[name].role == "user" && store[name].password == "password" + name[4..]
    ensures store["user1"].uid == uid1 && store["user2"].uid == uid2 && store["user3"].uid == uid3
  {
    map[
      "user1" := User("password1", uid1, "user"),
      "user2" := User("password2", uid2, "user"),
      "user3" := User("password3", uid3, "user")
    ]
  }

  /**
   * The credential check: the record of `username` when it is a key of the
   * table and the request carried a password exactly equal to the stored
   * one. `password` is None when the request body has no password field.
   */
  function Authenticate(store: Store, username: string, password: Option<string>): (r: Option<User>)
    ensures r.Some? <==> username in store && password == Some(store[username].password)
    ensures r.Some? ==> r.value == store[username]
  {
    if username in store && password == Some(store[username].password) then Some(store[username]) else None
  }

  /** Whole seconds since the epoch at a clock reading in milliseconds (Math.floor of ms / 1000). */
  function EpochSeconds(ms: int): (s: int)
    ensures s * 1000 <= ms < s * 1000 + 1000
  {
    ms / 1000
  }

  /** The claims of an issued token (the payload jose signs). */
  datatype Claims = Claims(roles: seq<string>, iat: int, sub: string, nbf: int, jti: string, exp: int)

  /**
   * The claim set for `user`, logging in as `username` at `nowMs`, with
   * token identifier `jti`.
   */
  function IssueClaims(user: User, username: string, nowMs: int, jti: string): (c: Claims)
    ensures c.roles == [user.role] && c.sub == username && c.jti == jti
    ensures c.iat * 1000 <= nowMs < c.iat * 1000 + 1000
    ensures c.iat < c.nbf < c.exp
    ensures c.nbf - c.iat == 1 && c.exp - c.iat == 3600
  {
    var iat := EpochSeconds(nowMs);
    Claims([user.role], iat, username, iat + NotBeforeDelay, jti, iat + TokenLifetime)
  }

  /** The `user` object of a successful reply. */
  datatype UserView = UserView(id: string, username: string, roles: seq<string>)

  datatype LoginBody =
    | Granted(token: string, user: UserView, expiresAt: int)
    | Denied(error: string)

  /** An HTTP reply: status code and JSON body. */
  datatype Reply = Reply(status: int, body: LoginBody)

  /** The one reply for every failed login. */
  const InvalidCredentials: Reply := Reply(401, Denied("invalid_credentials"))

  /**
   * POST /login. `jwtNowMs` is the clock as jose reads it while building the
   * token, `responseNowMs` the later reading for `expires_at`, `jti` the
   * identifier drawn for the token.
   */
  function Login(store: Store, username: string, password: Option<string>,
                 jwtNowMs: int, responseNowMs: int, jti: string, sign: Claims -> string): (r: Reply)
    ensures r.status == 200 || r == InvalidCredentials
    ensures r.status == 200 <==> username in store && password == Some(store[username].password)
    ensures r.status == 200 ==>
      var user := store[username];
      && r.body.Granted?
      && r.body.user == UserView(user.uid, username, [user.role])
      && r.body.token == sign(IssueClaims(user, username, jwtNowMs, jti))
      && IssueClaims(user, username, jwtNowMs, jti).roles == r.body.user.roles
      && (r.body.expiresAt - 3600) * 1000 <= responseNowMs < (r.body.expiresAt - 3600) * 1000 + 1000
  {
    match Authenticate(store, username, password)
    case None => InvalidCredentials
    case Some(user) =>
      var token := sign(IssueClaims(user, username, jwtNowMs, jti));
      Reply(200, Granted(token, UserView(user.uid, username, [user.role]), EpochSeconds(responseNowMs) + TokenLifetime))
  }

  /** An unknown username gets the invalid-credentials reply. */
  lemma UnknownUserRejected(store: Store, username: string, password: Option<string>,
                            jwtNowMs: int, responseNowMs: int, jti: string, sign: Claims -> string)
    requires username !in store
    ensures Login(store, username, password, jwtNowMs, responseNowMs, jti, sign) == InvalidCredentials
  {
  }

  /**
   * Enumeration resistance: an unknown username and a known username with a
   * wrong or missing password get the same reply, whatever the clocks and
   * identifiers of the two requests.
   */
  lemma FailuresIndistinguishable(store: Store, unknown: string, known: string,
                                  p1: Option<string>, p2: Option<string>,
                                  jwt1: int, resp1: int, jti1: string,
                                  jwt2: int, resp2: int, jti2: string, sign: Claims -> string)
    requires unknown !in store
    requires known in store && p2 != Some(store[known].password)
    ensures Login(store, unknown, p1, jwt1, resp1, jti1, sign) == Login(store, known, p2, jwt2, resp2, jti2, sign)
  {
  }

  /**
   * The `expires_at` of the reply against the `exp` of the token: equal when
   * both clock readings are the same; at least `exp`, and at most one second
   * later, when the reply is built less than a second after the token.
   */
  lemma ExpiresAtAgainstExp(store: Store, username: string, password: Option<string>,
                            jwtNowMs: int, responseNowMs: int, jti: string, sign: Claims -> string)
    requires Authenticate(store, username, password).Some?
    ensures
      var r := Login(store, username, password, jwtNowMs, responseNowMs, jti, sign);
      var c := IssueClaims(store[username], username, jwtNowMs, jti);
      && (jwtNowMs == responseNowMs ==> r.body.expiresAt == c.exp)
      && (jwtNowMs <= responseNowMs ==> c.exp <= r.body.expiresAt)
      && (jwtNowMs <= responseNowMs < jwtNowMs + 1000 ==> r.body.expiresAt <= c.exp + 1)
  {
  }

  /**
   * user1 logging in with password1 gets status 200, is reported as user1
   * with roles ["user"], and `expires_at` lies between 3599 and 3600 seconds
   * after the clock reading (in milliseconds) it was computed from.
   */
  lemma User1Login(uid1: string, uid2: string, uid3: string,
                   jwtNowMs: int, responseNowMs: int, jti: string, sign: Claims -> string)
    ensures
      var r := Login(Users(uid1, uid2, uid3), "user1", Some("password1"), jwtNowMs, responseNowMs, jti, sign);
      && r.status == 200
      && r.body.user == UserView(uid1, "user1", ["user"])
      && responseNowMs + 3599000 < r.body.expiresAt * 1000 <= responseNowMs + 3600000
  {
  }

  /** user1 with a wrong password gets the invalid-credentials reply. */
  lemma User1WrongPassword(uid1: string, uid2: string, uid3: string,
                           jwtNowMs: int, responseNowMs: int, jti: string, sign: Claims -> string)
    ensures Login(Users(uid1, uid2, uid3), "user1", Some("wrong"), jwtNowMs, responseNowMs, jti, sign)
      == InvalidCredentials
  {
  }

  // Sessions: many logins against the same table, each successful one
  // drawing the next identifier from a source of fresh identifiers.

  /** One login request with the two clock readings it sees. */
  datatype Attempt = Attempt(username: string, password: Option<string>, jwtNowMs: int, responseNowMs: int)

  /** The reply to one attempt, and the token identifier it drew, if any. */
  datatype Issuance = Issuance(reply: Reply, jti: Option<string>)

  predicate Distinct(ids: seq<string>) {
    forall i, j :: 0 <= i < j < |ids| ==> ids[i] != ids[j]
  }

  /**
   * Serves `attempts` in order against the same table. A successful login
   * takes the next identifier of `ids`; a failed one takes none.
   */
  function ServeLogins(store: Store, attempts: seq<Attempt>, ids: seq<string>, sign: Claims -> string): (out: seq<Issuance>)
    requires |attempts| <= |ids|
    ensures |out| == |attempts|
    decreases |attempts|
  {
    if attempts == [] then []
    else
      var a := attempts[0];
      if Authenticate(store, a.username, a.password).Some? then
        [Issuance(Login(store, a.username, a.password, a.jwtNowMs, a.responseNowMs, ids[0], sign), Some(ids[0]))]
          + ServeLogins(store, attempts[1..], ids[1..], sign)
      else
        [Issuance(InvalidCredentials, None)] + ServeLogins(store, attempts[1..], ids, sign)
  }

  /**
   * Each attempt of a session gets the reply a single login would get: an
   * identifier is drawn exactly when the credentials match, and the reply is
   * then Login with it; every other reply is the invalid-credentials reply.
   */
  lemma {:induction false} ServeLoginsReplies(store: Store, attempts: seq<Attempt>, ids: seq<string>, sign: Claims -> string)
    requires |attempts| <= |ids|
    ensures
      var out := ServeLogins(store, attempts, ids, sign);
      forall i :: 0 <= i < |out| ==>
        && (out[i].jti.Some? <==> Authenticate(store, attempts[i].username, attempts[i].password).Some?)
        && (out[i].jti.None? ==> out[i].reply == InvalidCredentials)
        && (out[i].jti.Some? ==>
              out[i].reply == Login(store, attempts[i].username, attempts[i].password,
                                    attempts[i].jwtNowMs, attempts[i].responseNowMs, out[i].jti.value, sign))
    decreases |attempts|
  {
    if attempts != [] {
      var out := ServeLogins(store, attempts, ids, sign);
      var a := attempts[0];
      var used := if Authenticate(store, a.username, a.password).Some? then ids[1..] else ids;
      var rest := ServeLogins(store, attempts[1..], used, sign);
      ServeLoginsReplies(store, attempts[1..], used, sign);
      assert out == [out[0]] + rest;
      forall i | 0 < i < |out|
        ensures out[i] == rest[i - 1] && attempts[i] == attempts[1..][i - 1]
      {
      }
    }
  }

  /** Every identifier drawn in `out` is one of `ids`. */
  predicate DrawnFrom(out: seq<Issuance>, ids: seq<string>) {
    forall i :: 0 <= i < |out| && out[i].jti.Some? ==> out[i].jti.value in ids
  }

  /** Every identifier a session draws comes from the source `ids`. */
  lemma {:induction false} JtisFromSource(store: Store, attempts: seq<Attempt>, ids: seq<string>, sign: Claims -> string)
    requires |attempts| <= |ids|
    ensures DrawnFrom(ServeLogins(store, attempts, ids, sign), ids)
    decreases |attempts|
  {
    if attempts != [] {
      var out := ServeLogins(store, attempts, ids, sign);
      var a := attempts[0];
      var used := if Authenticate(store, a.username, a.password).Some? then ids[1..] else ids;
      var rest := ServeLogins(store, attempts[1..], used, sign);
      JtisFromSource(store, attempts[1..], used, sign);
      assert out == [out[0]] + rest;
      forall i | 0 < i < |out| && out[i].jti.Some?
        ensures out[i].jti.value in ids
      {
        assert out[i] == rest[i - 1];
        assert rest[i - 1].jti.value in used;
      }
    }
  }

  /** No two issuances of `out` drew the same identifier. */
  predicate JtisDistinct(out: seq<Issuance>) {
    forall i, j :: 0 <= i < j < |out| && out[i].jti.Some? && out[j].jti.Some? ==> out[i].jti.value != out[j].jti.value
  }

  /**
   * When the identifier source never repeats itself, no two tokens of a
   * session carry the same `jti`.
   */
  lemma {:induction false} IssuedJtisDistinct(store: Store, attempts: seq<Attempt>, ids: seq<string>, sign: Claims -> string)
    requires |attempts| <= |ids| && Distinct(ids)
    ensures JtisDistinct(ServeLogins(store, attempts, ids, sign))
    decreases |attempts|
  {
    if attempts != [] {
      var out := ServeLogins(store, attempts, ids, sign);
      var a := attempts[0];
      var used := if Authenticate(store, a.username, a.password).Some? then ids[1..] else ids;
      var rest := ServeLogins(store, attempts[1..], used, sign);
      assert Distinct(used);
      IssuedJtisDistinct(store, attempts[1..], used, sign);
      JtisFromSource(store, attempts[1..], used, sign);
      assert out == [out[0]] + rest;
      forall i, j | 0 <= i < j < |out| && out[i].jti.Some? && out[j].jti.Some?
        ensures out[i].jti.value != out[j].jti.value
      {
        assert out[j] == rest[j - 1];
        if i == 0 {
          assert out[0].jti == Some(ids[0]) && used == ids[1..];
          var x := rest[j - 1].jti.value;
          assert x in ids[1..];
          var k :| 0 <= k < |ids[1..]| && ids[1..][k] == x;
          assert ids[k + 1] == x;
          assert ids[0] != ids[k + 1];
        } else {
          assert out[i] == rest[i - 1];
        }
      }
    }
  }

  // The table lookup as written. `users[username]` reads a property of a
  // plain JavaScript object, which also finds the members every object
  // inherits from Object.prototype; each of them is a truthy value whose
  // `password` property is undefined.

  /** The names a plain object inherits from Object.prototype. */
  const InheritedKeys: set<string> := {
    "constructor", "__proto__", "toString", "toLocaleString", "valueOf",
    "hasOwnProperty", "isPrototypeOf", "propertyIsEnumerable",
    "__defineGetter__", "__defineSetter__", "__lookupGetter__", "__lookupSetter__"
  }

  datatype Lookup = OwnRecord(user: User) | InheritedMember | Undefined

  /** `users[username]` on the object literal holding the table. */
  function LookupAsWritten(store: Store, username: string): (r: Lookup)
    ensures r.OwnRecord? <==> username in store
    ensures r.OwnRecord? ==> r.user == store[username]
    ensures r.InheritedMember? <==> username !in store && username in InheritedKeys
  {
    if username in store then OwnRecord(store[username])
    else if username in InheritedKeys then InheritedMember
    else Undefined
  }

  /**
   * The guard `!user || user.password !== password` negated, as written: an
   * inherited member passes it when the request has no password, because
   * then both sides are undefined.
   */
  function PassesCheckAsWritten(store: Store, username: string, password: Option<string>): (ok: bool)
    ensures ok && Authenticate(store, username, password).None? <==>
      username !in store && username in InheritedKeys && password == None
    ensures password.Some? ==> (ok <==> Authenticate(store, username, password).Some?)
  {
    match LookupAsWritten(store, username)
    case Undefined => false
    case OwnRecord(user) => password == Some(user.password)
    case InheritedMember => password == None
  }

  /**
   * A request body `{"username": "__proto__"}` passes the guard as written,
   * although `__proto__` is not a user, while the credential check rejects it.
   */
  lemma ProtoPassesCheckAsWritten(uid1: string, uid2: string, uid3: string)
    ensures "__proto__" !in Users(uid1, uid2, uid3)
    ensures PassesCheckAsWritten(Users(uid1, uid2, uid3), "__proto__", None)
    ensures Authenticate(Users(uid1, uid2, uid3), "__proto__", None) == None
  {
  }
}
