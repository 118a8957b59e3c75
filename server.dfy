/** The bearer-token server: login against the users table, the token gate
    in front of the project routes, and the seeding of the first admin.
    Password comparison and token verification are parameters. */
module Server {
  import opened Wrappers
  import opened JsString

  const InvalidCredentials := "Invalid credentials"
  const InternalError := "Internal server error"
  const TokenLifetime := "8h"
  const DefaultAdminEmail := "rhectoroc@gmail.com"

  /** The columns of the users table this server reads. */
  datatype Account = Account(id: int, email: string, passwordHash: string)

  /** `SELECT * FROM users WHERE email = $1` then `rows[0]`; an undefined
      email binds NULL, which no row equals. */
  function FindByEmail(rows: seq<Account>, email: Option<string>): (r: Option<nat>)
    ensures r.None? <==> email.None? || forall k :: 0 <= k < |rows| ==> rows[k].email != email.value
    ensures r.Some? ==> email.Some? && r.value < |rows| && rows[r.value].email == email.value
                        && forall k :: 0 <= k < r.value ==> rows[k].email != email.value
  {
    if email.None? || rows == [] then None
    else if rows[0].email == email.value then Some(0)
    else
      var r := FindByEmail(rows[1..], email);
      if r.None? then None else Some(r.value + 1)
  }

  // ---------------------------------------------------------------------
  // Login

  /** The payload a login signs, with its lifetime. */
  datatype Claims = Claims(userId: int, email: string, expiresIn: string)

  /** The login answer: the signed claims and the user's id and email only. */
  datatype LoginAnswer = LoginAnswer(claims: Claims, id: int, email: string)

  /** POST /api/auth/login. `matches(password, hash)` stands for the bcrypt
      comparison; comparing an undefined password throws, which the handler
      turns into 500. */
  function Login(rows: seq<Account>, email: Option<string>, password: Option<string>,
                 matches: (string, string) -> bool): Result<LoginAnswer>
  {
    var k := FindByEmail(rows, email);
    if k.None? then Err(HttpError(401, InvalidCredentials))
    else if password.None? then Err(HttpError(500, InternalError))
    else if !matches(password.value, rows[k.value].passwordHash) then Err(HttpError(401, InvalidCredentials))
    else
      var user := rows[k.value];
      Ok(LoginAnswer(Claims(user.id, user.email, TokenLifetime), user.id, user.email))
  }

  /** A login fails with the same answer whether the email is unknown or
      the password is wrong, so a caller cannot tell which. */
  lemma LoginFailureUniform(rows: seq<Account>, email: Option<string>, password: Option<string>,
                            matches: (string, string) -> bool)
    ensures FindByEmail(rows, email).None? ==> Login(rows, email, password, matches) == Err(HttpError(401, InvalidCredentials))
    ensures FindByEmail(rows, email).Some? && password.Some?
            && !matches(password.value, rows[FindByEmail(rows, email).value].passwordHash)
            ==> Login(rows, email, password, matches) == Err(HttpError(401, InvalidCredentials))
  {
  }

  /** A login succeeds exactly for a known email whose first row's hash
      matches the password; the token then names that row's id and email
      with an 8-hour lifetime, and the answer carries nothing else. */
  lemma LoginSuccess(rows: seq<Account>, email: Option<string>, password: Option<string>,
                     matches: (string, string) -> bool)
    ensures Login(rows, email, password, matches).Ok? <==>
      exists k :: 0 <= k < |rows| && email == Some(rows[k].email) && password.Some?
                  && FindByEmail(rows, email) == Some(k) && matches(password.value, rows[k].passwordHash)
    ensures Login(rows, email, password, matches).Ok? ==>
      var a := Login(rows, email, password, matches).value;
      && a.claims == Claims(a.id, a.email, "8h")
      && Some(a.email) == email
      && exists k :: 0 <= k < |rows| && rows[k].id == a.id && rows[k].email == a.email
  {
    var k := FindByEmail(rows, email);
    if Login(rows, email, password, matches).Ok? {
      assert 0 <= k.value < |rows| && email == Some(rows[k.value].email);
    }
  }

  // ---------------------------------------------------------------------
  // The token gate

  /** `authHeader && authHeader.split(' ')[1]`: None when the header is
      absent or has no second segment. */
  function TokenSegment(header: Option<string>): Option<string>
  {
    if header.None? || header.value == "" then None
    else
      var parts := Split(header.value, ' ');
      if |parts| < 2 then None else Some(parts[1])
  }

  datatype GateResult = Reject(status: int) | Admit(user: Claims)

  /** `authenticateToken`: 401 without a token, 403 when verification
      fails, otherwise the verified payload becomes the request's user. */
  function Gate(header: Option<string>, verify: string -> Option<Claims>): (r: GateResult)
    ensures r.Reject? ==> r.status == 401 || r.status == 403
  {
    var token := TokenSegment(header);
    if token.None? || token.value == "" then Reject(401)
    else if verify(token.value).None? then Reject(403)
    else Admit(verify(token.value).value)
  }

  /** The gate's three outcomes and what decides each. */
  lemma GateOutcomes(header: Option<string>, verify: string -> Option<Claims>)
    ensures Gate(header, verify) == Reject(401) <==> TokenSegment(header).None? || TokenSegment(header) == Some("")
    ensures Gate(header, verify) == Reject(403) <==>
              TokenSegment(header).Some? && TokenSegment(header).value != "" && verify(TokenSegment(header).value).None?
    ensures Gate(header, verify).Admit? ==> Some(Gate(header, verify).user) == verify(TokenSegment(header).value)
  {
  }

  /** The gate reads the token as the second space-separated word and never
      looks at the first: any scheme word, and anything after a further
      space, give the same token. */
  lemma SchemeIgnored(scheme: string, token: string, rest: string)
    requires ' ' !in scheme && ' ' !in token
    requires rest == [] || rest[0] == ' '
    ensures TokenSegment(Some(scheme + [' '] + token + rest)) == Some(token)
  {
    SecondWord(scheme, token, rest);
  }

  lemma SecondWord(scheme: string, token: string, rest: string)
    requires ' ' !in scheme && ' ' !in token
    requires rest == [] || rest[0] == ' '
    ensures |Split(scheme + [' '] + token + rest, ' ')| >= 2
    ensures Split(scheme + [' '] + token + rest, ' ')[1] == token
  {
    var tail := token + rest;
    assert scheme + [' '] + token + rest == scheme + [' '] + tail;
    SplitFront(scheme, ' ', tail);
    FirstWord(token, rest);
  }

  /** The first part of a split is the text up to the first separator. */
  lemma FirstWord(token: string, rest: string)
    requires ' ' !in token
    requires rest == [] || rest[0] == ' '
    ensures Split(token + rest, ' ')[0] == token
  {
    if rest == [] {
      assert token + rest == token;
      assert IndexOf(token, ' ').None?;
    } else {
      assert token + rest == token + [' '] + rest[1..];
      SplitFront(token, ' ', rest[1..]);
    }
  }

  /** A header of a single word carries no token. */
  lemma SingleWordRejected(word: string, verify: string -> Option<Claims>)
    requires ' ' !in word
    ensures Gate(Some(word), verify) == Reject(401)
  {
    assert IndexOf(word, ' ').None?;
  }

  /** The routes this server defines. */
  datatype Route = LoginRoute | CreateProject | DeleteProject | ListServices | ListProjects | Health | Frontend

  /** Project creation and deletion run behind the gate; the rest are public. */
  predicate Gated(route: Route)
  {
    route == CreateProject || route == DeleteProject
  }

  datatype Dispatch = Refused(status: int) | Handled(route: Route, user: Option<Claims>)

  /** Routing a request: a gated handler runs only after the gate admits
      the request, and then with the verified payload as its user. */
  function Routed(route: Route, header: Option<string>, verify: string -> Option<Claims>): (d: Dispatch)
    ensures !Gated(route) ==> d == Handled(route, None)
    ensures Gated(route) ==> (d.Handled? <==> Gate(header, verify).Admit?)
    ensures Gated(route) && d.Handled? ==> d == Handled(route, Some(Gate(header, verify).user))
    ensures d.Refused? ==> d.status == Gate(header, verify).status
  {
    if !Gated(route) then Handled(route, None)
    else
      var g := Gate(header, verify);
      if g.Reject? then Refused(g.status) else Handled(route, Some(g.user))
  }

  // ---------------------------------------------------------------------
  // Seeding the first admin

  /** The table after `seedAdmin`: the admin row is added to an empty table
      only. */
  function Seeded(rows: seq<Account>, id: int, hash: string): seq<Account>
  {
    if |rows| == 0 then [Account(id, DefaultAdminEmail, hash)] else rows
  }

  /** Seeding never leaves the table empty, never touches a non-empty one,
      and a second seeding changes nothing. */
  lemma SeedSpec(rows: seq<Account>, id: int, hash: string, id2: int, hash2: string)
    ensures |Seeded(rows, id, hash)| >= 1
    ensures rows != [] ==> Seeded(rows, id, hash) == rows
    ensures rows == [] ==> FindByEmail(Seeded(rows, id, hash), Some(DefaultAdminEmail)) == Some(0)
    ensures Seeded(Seeded(rows, id, hash), id2, hash2) == Seeded(rows, id, hash)
  {
  }

  class AccountTable {
    var rows: seq<Account>
    var nextId: int

    constructor (rows0: seq<Account>, nextId0: int)
      ensures rows == rows0 && nextId == nextId0
    {
      rows := rows0;
      nextId := nextId0;
    }

    /** `seedAdmin`, with `hash` standing for the bcrypt hash of the
        default password. */
    method SeedAdmin(hash: string)
      modifies this
      ensures rows == Seeded(old(rows), old(nextId), hash)
      ensures nextId == if old(rows) == [] then old(nextId) + 1 else old(nextId)
    {
      var count := |rows|;
      if count == 0 {
        rows := rows + [Account(nextId, DefaultAdminEmail, hash)];
        nextId := nextId + 1;
      }
    }
  }
}
