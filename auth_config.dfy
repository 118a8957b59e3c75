/** The credentials provider and the two callbacks of the session-based
    sign-in: `authorize` answers a user or null, never an error; the jwt
    callback copies the user's id into the token and the session callback
    copies it on into the session. */
module AuthConfig {
  import opened Wrappers
  import opened JsString
  import Server

  /** The submitted form; either field may be absent. */
  datatype Credentials = Credentials(email: Option<string>, password: Option<string>)

  /** What `authorize` answers on success. */
  datatype AuthUser = AuthUser(id: int, email: string, name: string)

  /** `email.split('@')[0]` */
  function NameOf(email: string): string
  {
    Split(email, '@')[0]
  }

  /** The fallback name is the part of the email before its first '@', or
      the whole email when there is none. */
  lemma NameBeforeAt(email: string)
    ensures '@' !in NameOf(email)
    ensures IndexOf(email, '@').None? ==> NameOf(email) == email
    ensures IndexOf(email, '@').Some? ==> NameOf(email) == email[..IndexOf(email, '@').value]
  {
  }

  /** A field `!value` rejects: absent or empty. */
  predicate Missing(v: Option<string>)
  {
    v.None? || v.value == ""
  }

  /** `authorize`. `rows` is the answer of the lookup query, None when it
      throws; `compare(password, hash)` is the bcrypt comparison, None when
      it throws. Every failure is null. */
  function Authorize(credentials: Option<Credentials>, rows: Option<seq<Server.Account>>,
                     compare: (string, string) -> Option<bool>): Option<AuthUser>
  {
    if credentials.None? || Missing(credentials.value.email) || Missing(credentials.value.password) then None
    else if rows.None? then None
    else
      var k := Server.FindByEmail(rows.value, credentials.value.email);
      if k.None? then None
      else
        var user := rows.value[k.value];
        var valid := compare(credentials.value.password.value, user.passwordHash);
        if valid != Some(true) then None
        else Some(AuthUser(user.id, user.email, NameOf(user.email)))
  }

  /** `authorize` answers a user exactly when both fields are present and
      non-empty, the lookup succeeds and finds the email, and the comparison
      succeeds and matches; the user is that row, named by its email. */
  lemma AuthorizeIff(credentials: Option<Credentials>, rows: Option<seq<Server.Account>>,
                     compare: (string, string) -> Option<bool>)
    ensures Authorize(credentials, rows, compare).Some? <==>
      && credentials.Some? && !Missing(credentials.value.email) && !Missing(credentials.value.password)
      && rows.Some? && Server.FindByEmail(rows.value, credentials.value.email).Some?
      && compare(credentials.value.password.value,
                 rows.value[Server.FindByEmail(rows.value, credentials.value.email).value].passwordHash) == Some(true)
    ensures Authorize(credentials, rows, compare).Some? ==>
      var u := Authorize(credentials, rows, compare).value;
      && Some(u.email) == credentials.value.email
      && (exists k :: 0 <= k < |rows.value| && rows.value[k].id == u.id && rows.value[k].email == u.email)
      && u.name == NameOf(u.email)
  {
    if Authorize(credentials, rows, compare).Some? {
      var k := Server.FindByEmail(rows.value, credentials.value.email).value;
      assert rows.value[k].email == credentials.value.email.value;
    }
  }

  /** The claims the session keeps; other claims are not part of this model. */
  class Token {
    var id: Option<int>

    constructor (id0: Option<int>)
      ensures id == id0
    {
      id := id0;
    }
  }

  class SessionUser {
    var id: Option<int>

    constructor (id0: Option<int>)
      ensures id == id0
    {
      id := id0;
    }
  }

  class Session {
    var user: SessionUser

    constructor (user0: SessionUser)
      ensures user == user0
    {
      user := user0;
    }
  }

  /** `callbacks.jwt`: a sign-in (a user present) stores the user's id in
      the token; otherwise the token is left as it was. */
  method JwtCallback(token: Token, user: Option<AuthUser>) returns (r: Token)
    modifies token
    ensures r == token
    ensures token.id == if user.Some? then Some(user.value.id) else old(token.id)
  {
    if user.Some? {
      token.id := Some(user.value.id);
    }
    r := token;
  }

  /** `callbacks.session`: with a token, the session's user takes the
      token's id; nothing else changes. */
  method SessionCallback(session: Session, token: Token?) returns (r: Session)
    modifies session.user
    ensures r == session && session.user == old(session.user)
    ensures session.user.id == if token != null then old(token.id) else old(session.user.id)
  {
    if token != null {
      session.user.id := token.id;
    }
    r := session;
  }
}
