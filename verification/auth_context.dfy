/**
 * The client's session state (frontend/src/contexts/AuthContext.jsx): the two persisted
 * storage entries holding the token and the user id, the default Authorization header,
 * the signed-in `user` and the `loading` flag.
 *
 * Decoding a token is the partial function `decode` (None when the token cannot be
 * decoded); the clock and every server reply are parameters of the operations.
 */
module Auth {
  import opened Wrappers
  import UserRoutes

  const LoginKey: string := "smartStudyLogin"
  const UserIdKey: string := "smartStudyUserId"

  /** The claims a decoded token carries; `exp` is in seconds. */
  datatype Claims = Claims(userId: string, username: string, exp: int)

  /** The signed-in user as the client caches it. */
  datatype ClientUser = ClientUser(id: string, username: string, bonusPoints: Option<nat>, email: Option<string>)

  /** The outcome of GET /user/:id: a transport or HTTP failure, or the reply body. */
  datatype FetchReply = FetchFailed | Fetched(success: bool, user: UserRoutes.UserView)

  /** The body of a successful login or register reply. */
  datatype AuthReply = AuthReply(token: string, user: UserRoutes.UserView)

  /** `decoded.exp * 1000 > Date.now()` fails: `now` is in milliseconds. */
  predicate Expired(c: Claims, now: int) {
    c.exp * 1000 <= now
  }

  function Bearer(token: string): string {
    "Bearer " + token
  }

  /** The user a successful fetch installs: every field comes from the server's record. */
  function FromServer(v: UserRoutes.UserView): (u: ClientUser)
    ensures u.id == v.id && u.username == v.username
    ensures u.bonusPoints == Some(v.bonusPoints) && u.email == Some(v.email)
  {
    ClientUser(v.id, v.username, Some(v.bonusPoints), Some(v.email))
  }

  class AuthProvider {
    var storage: map<string, string>
    var authHeader: Option<string>
    var user: Option<ClientUser>
    var loading: bool
    const decode: string -> Option<Claims>

    /** Mounting the provider: no user yet, loading, whatever the browser had stored. */
    constructor (storage: map<string, string>, decode: string -> Option<Claims>)
      ensures this.storage == storage && this.decode == decode
      ensures authHeader == None && user == None && loading
    {
      this.storage := storage;
      this.decode := decode;
      authHeader := None;
      user := None;
      loading := true;
    }

    /** `localStorage.getItem(key)` gives a non-empty string. */
    predicate Stored(key: string)
      reads this
    {
      key in storage && storage[key] != ""
    }

    /**
     * The start-up check. Without both entries nothing but `loading` changes. A token that
     * cannot be decoded or has expired removes both entries and leaves no user. A live
     * token installs its user id and name and the Authorization header, then refreshes
     * the user from the stored id (`fetched`). `loading` ends false in every case.
     */
    method InitializeAuth(now: int, fetched: FetchReply)
      modifies this
      ensures !loading
      ensures !(old(Stored(LoginKey)) && old(Stored(UserIdKey))) ==>
        storage == old(storage) && authHeader == old(authHeader) && user == old(user)
      ensures old(Stored(LoginKey)) && old(Stored(UserIdKey)) ==>
        var token := old(storage)[LoginKey];
        match decode(token)
        case None =>
          storage == old(storage) - {LoginKey, UserIdKey} && authHeader == old(authHeader) && user == None
        case Some(c) =>
          if Expired(c, now) then
            storage == old(storage) - {LoginKey, UserIdKey} && authHeader == old(authHeader) && user == None
          else
            && storage == old(storage) && authHeader == Some(Bearer(token))
            && user == (if fetched.Fetched? && fetched.success then Some(FromServer(fetched.user))
                        else Some(ClientUser(c.userId, c.username, None, None)))
    {
      if Stored(LoginKey) && Stored(UserIdKey) {
        var token := storage[LoginKey];
        match decode(token)
        case None =>
          storage := storage - {LoginKey, UserIdKey};
          user := None;
        case Some(c) =>
          if !Expired(c, now) {
            user := Some(ClientUser(c.userId, c.username, None, None));
            authHeader := Some(Bearer(token));
            GetUser(fetched);
          } else {
            storage := storage - {LoginKey, UserIdKey};
            user := None;
          }
      }
      loading := false;
    }

    /**
     * What login and register do with the server's reply. A failed request changes
     * nothing and is reported. Otherwise both entries and the header are written first;
     * then the token is decoded: on success the user is the token's id and name with the
     * reply's points, and if the token cannot be decoded the error is reported with the
     * user left as it was.
     */
    method StoreSession(reply: Result<AuthReply, string>) returns (ok: bool)
      modifies this
      ensures loading == old(loading)
      ensures reply.Failure? ==>
        !ok && storage == old(storage) && authHeader == old(authHeader) && user == old(user)
      ensures reply.Success? ==>
        var r := reply.value;
        && storage == old(storage)[LoginKey := r.token][UserIdKey := r.user.id]
        && authHeader == Some(Bearer(r.token))
        && ok == decode(r.token).Some?
        && user == (if ok then Some(ClientUser(decode(r.token).value.userId, decode(r.token).value.username,
                                               Some(r.user.bonusPoints), None))
                    else old(user))
    {
      if reply.Failure? {
        return false;
      }
      var r := reply.value;
      storage := storage[LoginKey := r.token];
      storage := storage[UserIdKey := r.user.id];
      authHeader := Some(Bearer(r.token));
      match decode(r.token)
      case None =>
        ok := false;
      case Some(c) =>
        user := Some(ClientUser(c.userId, c.username, Some(r.user.bonusPoints), None));
        ok := true;
    }

    /** `login(email, password)`: the reply of POST /login, handled by StoreSession. */
    method Login(reply: Result<AuthReply, string>) returns (ok: bool)
      modifies this
      ensures loading == old(loading)
      ensures reply.Failure? ==>
        !ok && storage == old(storage) && authHeader == old(authHeader) && user == old(user)
      ensures reply.Success? ==>
        var r := reply.value;
        && storage == old(storage)[LoginKey := r.token][UserIdKey := r.user.id]
        && authHeader == Some(Bearer(r.token))
        && ok == decode(r.token).Some?
        && user == (if ok then Some(ClientUser(decode(r.token).value.userId, decode(r.token).value.username,
                                               Some(r.user.bonusPoints), None))
                    else old(user))
    {
      ok := StoreSession(reply);
    }

    /** `register(username, email, password)`: the reply of POST /register, handled like a login. */
    method Register(reply: Result<AuthReply, string>) returns (ok: bool)
      modifies this
      ensures loading == old(loading)
      ensures reply.Failure? ==>
        !ok && storage == old(storage) && authHeader == old(authHeader) && user == old(user)
      ensures reply.Success? ==>
        var r := reply.value;
        && storage == old(storage)[LoginKey := r.token][UserIdKey := r.user.id]
        && authHeader == Some(Bearer(r.token))
        && ok == decode(r.token).Some?
        && user == (if ok then Some(ClientUser(decode(r.token).value.userId, decode(r.token).value.username,
                                               Some(r.user.bonusPoints), None))
                    else old(user))
    {
      ok := StoreSession(reply);
    }

    /** Removes both entries and the header and forgets the user; everything else stays. */
    method Logout()
      modifies this
      ensures storage == old(storage) - {LoginKey, UserIdKey}
      ensures LoginKey !in storage && UserIdKey !in storage
      ensures authHeader == None && user == None && loading == old(loading)
    {
      storage := storage - {LoginKey, UserIdKey};
      authHeader := None;
      user := None;
    }

    /**
     * `getUser(id)` with the fetch's outcome: a successful reply overwrites the id, name,
     * points and email of the cached user (creating it if there was none); a failed fetch
     * or a reply with `success` false leaves it alone. Nothing else changes.
     */
    method GetUser(fetched: FetchReply)
      modifies this
      ensures storage == old(storage) && authHeader == old(authHeader) && loading == old(loading)
      ensures fetched.Fetched? && fetched.success ==> user == Some(FromServer(fetched.user))
      ensures !(fetched.Fetched? && fetched.success) ==> user == old(user)
    {
      if fetched.Fetched? && fetched.success {
        user := Some(FromServer(fetched.user));
      }
    }
  }
}
