/**
 * The account routes of the API server (server/routes/user.js): register, login, fetch a
 * user and award study time, over an in-memory table of accounts keyed by object id.
 *
 * The document store is the map `accounts`; password hashing and token signing are the
 * functions `hash` and `sign` the store is built with. A password matches a stored hash
 * when hashing it gives that hash.
 */
module UserRoutes {
  import Text
  import opened Wrappers

  /** Points added by one award of study time. */
  const PointsPerInterval: nat := 10

  /**
   * The textual form of a store object id: 24 hexadecimal digits, written in lower case as
   * the store renders every id it holds.
   */
  type ObjectId = s: string | Text.IsObjectId(s) && Text.NoCapitals(s) witness "000000000000000000000000"

  /**
   * How the store casts a route's string to an object id before looking it up: any 24
   * hexadecimal digits cast, whatever their letter case, to the id they spell; anything
   * else fails to cast.
   */
  function Cast(s: string): (r: Option<ObjectId>)
    ensures r.Some? <==> Text.IsObjectId(s)
    ensures r.Some? ==> r.value == Text.Lower(s)
  {
    if Text.IsObjectId(s) then
      Text.LowerObjectId(s);
      Some(Text.Lower(s))
    else
      None
  }

  /** A stored id casts to itself. */
  lemma CastOfId(id: ObjectId)
    ensures Cast(id) == Some(id)
  {
    Text.LowerOfNoCapitals(id);
  }

  /** Two spellings of an id that differ only in letter case cast alike. */
  lemma CastIgnoresCase(s: string, t: string)
    requires Text.Lower(s) == Text.Lower(t)
    ensures Cast(s) == Cast(t)
  {
    if Text.IsObjectId(s) {
      HexOfLower(t);
    } else if Text.IsObjectId(t) {
      HexOfLower(s);
    }
  }

  /** Whether a string spells an object id depends only on its lower-case form. */
  lemma HexOfLower(s: string)
    requires Text.IsObjectId(Text.Lower(s))
    ensures Text.IsObjectId(s)
  {
    forall i | 0 <= i < |s| ensures Text.IsHexDigit(s[i]) {
      assert Text.IsHexDigit(Text.Lower(s)[i]);
    }
  }

  /** A stored account. The password is kept only as its hash. */
  datatype Account = Account(username: string, email: string, passwordHash: string, bonusPoints: nat)

  /** What the routes reveal about an account: the password hash has no place in it. */
  datatype UserView = UserView(id: string, username: string, email: string, bonusPoints: nat)

  datatype Body =
    | Authenticated(token: string, user: UserView)
    | UserFound(user: UserView)
    | PointsAdded(message: string, points: nat)
    | Failed(message: string)

  datatype Response = Response(status: nat, body: Body) {
    predicate Ok() { status == 200 }
  }

  const AlreadyExists := Response(400, Failed("User already exists"))
  const InvalidCredentials := Response(400, Failed("Invalid credentials"))
  const IdRequired := Response(400, Failed("User ID is required"))
  const NotFound := Response(404, Failed("User not found"))
  const ServerError := Response(500, Failed("Server error"))

  /** "You earned 10 bonus points." */
  const AwardMessage: string := "You earned " + Text.Decimal(PointsPerInterval) + " bonus points."

  function View(id: ObjectId, a: Account): (v: UserView)
    ensures v.id == id && v.username == a.username && v.email == a.email && v.bonusPoints == a.bonusPoints
  {
    UserView(id, a.username, a.email, a.bonusPoints)
  }

  predicate HasEmail(accounts: map<ObjectId, Account>, email: string) {
    exists id :: id in accounts && accounts[id].email == email
  }

  /** No two accounts share an email address: `findOne({ email })` finds at most one. */
  ghost predicate UniqueEmails(accounts: map<ObjectId, Account>) {
    forall a, b :: a in accounts && b in accounts && a != b ==> accounts[a].email != accounts[b].email
  }

  /** No account disappears and no balance goes down. */
  ghost predicate PointsGrow(before: map<ObjectId, Account>, after: map<ObjectId, Account>) {
    forall id :: id in before ==> id in after && before[id].bonusPoints <= after[id].bonusPoints
  }

  class UserStore {
    var accounts: map<ObjectId, Account>
    const hash: string -> string
    const sign: (string, string) -> string

    ghost predicate Valid()
      reads this
    {
      UniqueEmails(accounts)
    }

    constructor (hash: string -> string, sign: (string, string) -> string)
      ensures Valid() && accounts == map[]
      ensures this.hash == hash && this.sign == sign
    {
      accounts := map[];
      this.hash := hash;
      this.sign := sign;
    }

    /**
     * POST /register. A taken email is refused with 400 and nothing is stored; otherwise
     * the account is stored under the id the store generated, with the hashed password
     * and no points, and the reply carries a token and the account without its password.
     * A store that cannot save (its generated id already used) answers 500.
     */
    method Register(username: string, email: string, password: string, freshId: ObjectId) returns (resp: Response)
      requires Valid()
      modifies this
      ensures Valid() && PointsGrow(old(accounts), accounts)
      ensures HasEmail(old(accounts), email) ==> resp == AlreadyExists && accounts == old(accounts)
      ensures !HasEmail(old(accounts), email) && freshId in old(accounts) ==>
        resp == ServerError && accounts == old(accounts)
      ensures !HasEmail(old(accounts), email) && freshId !in old(accounts) ==>
        && accounts == old(accounts)[freshId := Account(username, email, hash(password), 0)]
        && resp == Response(200, Authenticated(sign(freshId, username), UserView(freshId, username, email, 0)))
    {
      if HasEmail(accounts, email) {
        return AlreadyExists;
      }
      if freshId in accounts {
        return ServerError;
      }
      var account := Account(username, email, hash(password), 0);
      accounts := accounts[freshId := account];
      resp := Response(200, Authenticated(sign(freshId, username), View(freshId, account)));
    }

    /**
     * POST /login. Succeeds exactly when some account has this email and the password
     * hashes to its stored hash; an unknown email and a wrong password get the same reply.
     */
    method Login(email: string, password: string) returns (resp: Response)
      requires Valid()
      ensures resp.Ok() <==>
        exists id :: id in accounts && accounts[id].email == email && accounts[id].passwordHash == hash(password)
      ensures !resp.Ok() ==> resp == InvalidCredentials
      ensures resp.Ok() ==>
        exists id :: id in accounts && accounts[id].email == email &&
                     resp == Response(200, Authenticated(sign(id, accounts[id].username), View(id, accounts[id])))
    {
      if !HasEmail(accounts, email) {
        return InvalidCredentials;
      }
      var id :| id in accounts && accounts[id].email == email;
      var account := accounts[id];
      if hash(password) != account.passwordHash {
        return InvalidCredentials;
      }
      resp := Response(200, Authenticated(sign(id, account.username), UserView(id, account.username, email, account.bonusPoints)));
    }

    /**
     * GET /user/:id. A string that does not cast to an object id cannot be looked up
     * (500); an id naming no account gives 404; otherwise the account's id, username,
     * email and points. Letter case in the requested id does not matter.
     */
    method GetUser(id: string) returns (resp: Response)
      ensures !Text.IsObjectId(id) ==> resp == ServerError
      ensures Text.IsObjectId(id) && Text.Lower(id) !in accounts ==> resp == NotFound
      ensures Text.IsObjectId(id) && Text.Lower(id) in accounts ==>
        resp == Response(200, UserFound(View(Text.Lower(id), accounts[Text.Lower(id)])))
    {
      var key := Cast(id);
      if key.None? {
        return ServerError;
      }
      if key.value !in accounts {
        return NotFound;
      }
      resp := Response(200, UserFound(View(key.value, accounts[key.value])));
    }

    /**
     * POST /update-time. A missing or empty id gives 400, a malformed one 500 and one
     * naming no account 404, all leaving the table alone; otherwise the account it names
     * (in any letter case), and only it, gains exactly 10 points and the reply carries the
     * new balance.
     */
    method UpdateTime(userId: Option<string>) returns (resp: Response)
      requires Valid()
      modifies this
      ensures Valid() && PointsGrow(old(accounts), accounts)
      ensures userId == None || userId == Some("") ==> resp == IdRequired && accounts == old(accounts)
      ensures userId.Some? && userId.value != "" && !Text.IsObjectId(userId.value) ==>
        resp == ServerError && accounts == old(accounts)
      ensures userId.Some? && Text.IsObjectId(userId.value) && Text.Lower(userId.value) !in old(accounts) ==>
        resp == NotFound && accounts == old(accounts)
      ensures userId.Some? && Text.IsObjectId(userId.value) && Text.Lower(userId.value) in old(accounts) ==>
        var id := Text.Lower(userId.value);
        var before := old(accounts)[id];
        && accounts == old(accounts)[id := before.(bonusPoints := before.bonusPoints + PointsPerInterval)]
        && resp == Response(200, PointsAdded(AwardMessage, before.bonusPoints + PointsPerInterval))
    {
      if userId.None? || userId.value == "" {
        return IdRequired;
      }
      var key := Cast(userId.value);
      if key.None? {
        return ServerError;
      }
      var id := key.value;
      if id !in accounts {
        return NotFound;
      }
      var account := accounts[id];
      account := account.(bonusPoints := account.bonusPoints + PointsPerInterval);
      accounts := accounts[id := account];
      resp := Response(200, PointsAdded(AwardMessage, account.bonusPoints));
    }
  }
}
