/** The bot configuration routes: one configuration per user, saved by
    update-or-insert, and a public lookup by capability token that renames
    the stored columns into the shape the external agent expects. */
module Bot {
  import opened Wrappers

  const InvalidToken := "Invalid Token"
  const ServerError := "Server Error"

  /** The six text columns a save writes; None is a field the request left
      undefined, stored as NULL. */
  datatype BotFields = BotFields(botName: Option<string>, systemRole: Option<string>,
                                 tonePersonality: Option<string>, businessContext: Option<string>,
                                 constraints: Option<string>, faqExamples: Option<string>)

  /** A row of `bot_config` (timestamps left out). */
  datatype BotConfig = BotConfig(id: int, userId: int, fields: BotFields, publicToken: string)

  /** The answer of the public context lookup. */
  datatype BotContext = BotContext(botName: Option<string>, systemRole: Option<string>,
                                   personality: Option<string>, context: Option<string>,
                                   criticalConstraints: Option<string>, knowledgeBase: Option<string>)

  /** The renaming of a configuration into the context shape. */
  function ContextOf(c: BotConfig): BotContext
  {
    BotContext(c.fields.botName, c.fields.systemRole, c.fields.tonePersonality,
               c.fields.businessContext, c.fields.constraints, c.fields.faqExamples)
  }

  /** The renaming back, into the stored column names. */
  function FieldsOf(x: BotContext): BotFields
  {
    BotFields(x.botName, x.systemRole, x.personality, x.context, x.criticalConstraints, x.knowledgeBase)
  }

  /** The context carries exactly the six stored texts: renaming it back
      gives the saved fields, and two configurations with the same fields
      give the same context whatever their owner and token. */
  lemma ContextRenaming(c: BotConfig, d: BotConfig)
    ensures FieldsOf(ContextOf(c)) == c.fields
    ensures ContextOf(c) == ContextOf(d) <==> c.fields == d.fields
  {
    if ContextOf(c) == ContextOf(d) {
      assert FieldsOf(ContextOf(c)) == FieldsOf(ContextOf(d));
    }
  }

  /** The first row satisfying a lookup on its owner. */
  function FindUser(rows: seq<BotConfig>, userId: int): (r: Option<nat>)
    ensures r.None? <==> forall k :: 0 <= k < |rows| ==> rows[k].userId != userId
    ensures r.Some? ==> r.value < |rows| && rows[r.value].userId == userId
                        && forall k :: 0 <= k < r.value ==> rows[k].userId != userId
  {
    if rows == [] then None
    else if rows[0].userId == userId then Some(0)
    else
      var r := FindUser(rows[1..], userId);
      if r.None? then None else Some(r.value + 1)
  }

  /** The first row holding a token. */
  function FindToken(rows: seq<BotConfig>, token: string): (r: Option<nat>)
    ensures r.None? <==> forall k :: 0 <= k < |rows| ==> rows[k].publicToken != token
    ensures r.Some? ==> r.value < |rows| && rows[r.value].publicToken == token
                        && forall k :: 0 <= k < r.value ==> rows[k].publicToken != token
  {
    if rows == [] then None
    else if rows[0].publicToken == token then Some(0)
    else
      var r := FindToken(rows[1..], token);
      if r.None? then None else Some(r.value + 1)
  }

  lemma {:induction false} FindUserAppend(rows: seq<BotConfig>, c: BotConfig, u: int)
    ensures FindUser(rows + [c], u) ==
      if FindUser(rows, u).Some? then FindUser(rows, u) else if c.userId == u then Some(|rows|) else None
  {
    if rows != [] {
      assert (rows + [c])[1..] == rows[1..] + [c];
      FindUserAppend(rows[1..], c, u);
    }
  }

  /** Rewriting a row without changing its owner leaves every owner lookup as it was. */
  lemma {:induction false} FindUserUpdate(rows: seq<BotConfig>, k: nat, c: BotConfig, u: int)
    requires k < |rows| && c.userId == rows[k].userId
    ensures FindUser(rows[k := c], u) == FindUser(rows, u)
  {
    if k > 0 {
      assert rows[k := c][1..] == rows[1..][k - 1 := c];
      FindUserUpdate(rows[1..], k - 1, c, u);
    }
  }

  /** The `UNIQUE (user_id)` and `UNIQUE` public_token constraints. */
  ghost predicate Unique(rows: seq<BotConfig>)
  {
    forall i, j :: 0 <= i < j < |rows| ==> rows[i].userId != rows[j].userId && rows[i].publicToken != rows[j].publicToken
  }

  /** The configuration of a user, if one exists. */
  function ConfigOf(rows: seq<BotConfig>, userId: int): Option<BotConfig>
  {
    var k := FindUser(rows, userId);
    if k.None? then None else Some(rows[k.value])
  }

  /** The table and the next SERIAL id, as a value. */
  datatype Store = Store(rows: seq<BotConfig>, nextId: int)

  /** One save by `userId`: overwrite the six fields of an existing
      configuration, or insert one with the generated token; the insert
      fails when the token is already taken (the UNIQUE constraint). */
  function Save(s: Store, userId: int, fields: BotFields, freshToken: string): Result<Store>
  {
    var k := FindUser(s.rows, userId);
    if k.Some? then Ok(Store(s.rows[k.value := s.rows[k.value].(fields := fields)], s.nextId))
    else if FindToken(s.rows, freshToken).Some? then Err(HttpError(500, ServerError))
    else Ok(Store(s.rows + [BotConfig(s.nextId, userId, fields, freshToken)], s.nextId + 1))
  }

  /** A save request: the user, the body and the token the generator yields. */
  datatype SaveRequest = SaveRequest(userId: int, fields: BotFields, freshToken: string)

  /** A run of saves; a failed save leaves the table as it was. */
  function Replay(s: Store, saves: seq<SaveRequest>): Store
    decreases saves
  {
    if saves == [] then s
    else
      var r := Save(s, saves[0].userId, saves[0].fields, saves[0].freshToken);
      Replay(if r.Ok? then r.value else s, saves[1..])
  }

  /** A save keeps both constraints, and the saved fields are what the user's
      configuration then holds. */
  lemma SaveSpec(s: Store, userId: int, fields: BotFields, freshToken: string)
    requires Unique(s.rows)
    ensures var r := Save(s, userId, fields, freshToken);
      r.Ok? ==> Unique(r.value.rows) && ConfigOf(r.value.rows, userId).Some?
                && ConfigOf(r.value.rows, userId).value.fields == fields
  {
    var r := Save(s, userId, fields, freshToken);
    var k := FindUser(s.rows, userId);
    if r.Ok? {
      var rows := r.value.rows;
      if k.Some? {
        FindUserUpdate(s.rows, k.value, s.rows[k.value].(fields := fields), userId);
        UniqueUpdate(s.rows, k.value, fields);
      } else {
        FindUserAppend(s.rows, BotConfig(s.nextId, userId, fields, freshToken), userId);
        UniqueAppend(s.rows, BotConfig(s.nextId, userId, fields, freshToken));
      }
    }
  }

  lemma UniqueUpdate(rows: seq<BotConfig>, k: nat, fields: BotFields)
    requires Unique(rows) && k < |rows|
    ensures Unique(rows[k := rows[k].(fields := fields)])
  {
    var r := rows[k := rows[k].(fields := fields)];
    assert forall j :: 0 <= j < |r| ==> r[j].userId == rows[j].userId && r[j].publicToken == rows[j].publicToken;
  }

  lemma UniqueAppend(rows: seq<BotConfig>, c: BotConfig)
    requires Unique(rows)
    requires forall k :: 0 <= k < |rows| ==> rows[k].userId != c.userId
    requires forall k :: 0 <= k < |rows| ==> rows[k].publicToken != c.publicToken
    ensures Unique(rows + [c])
  {
  }

  /** A save changes no other user's configuration, and a user's existing
      configuration keeps its id, owner and token: only the fields change. */
  lemma SaveKeeps(s: Store, userId: int, fields: BotFields, freshToken: string, u: int)
    requires Unique(s.rows)
    ensures var r := Save(s, userId, fields, freshToken);
      r.Ok? ==>
        && (u != userId ==> ConfigOf(r.value.rows, u) == ConfigOf(s.rows, u))
        && (ConfigOf(s.rows, userId).Some? ==>
              ConfigOf(r.value.rows, userId) == Some(ConfigOf(s.rows, userId).value.(fields := fields)))
        && (ConfigOf(s.rows, userId).None? ==>
              ConfigOf(r.value.rows, userId) == Some(BotConfig(s.nextId, userId, fields, freshToken)))
  {
    var k := FindUser(s.rows, userId);
    if k.Some? {
      FindUserUpdate(s.rows, k.value, s.rows[k.value].(fields := fields), u);
      FindUserUpdate(s.rows, k.value, s.rows[k.value].(fields := fields), userId);
    } else {
      FindUserAppend(s.rows, BotConfig(s.nextId, userId, fields, freshToken), u);
      FindUserAppend(s.rows, BotConfig(s.nextId, userId, fields, freshToken), userId);
    }
  }

  /** After any run of saves a user has at most one configuration, and once
      it exists its id, owner and token never change. */
  lemma {:induction false} TokenIssuedOnce(s: Store, saves: seq<SaveRequest>, u: int)
    requires Unique(s.rows) && ConfigOf(s.rows, u).Some?
    decreases saves
    ensures Unique(Replay(s, saves).rows)
    ensures ConfigOf(Replay(s, saves).rows, u).Some?
    ensures var c := ConfigOf(Replay(s, saves).rows, u).value;
      c.id == ConfigOf(s.rows, u).value.id && c.userId == u && c.publicToken == ConfigOf(s.rows, u).value.publicToken
  {
    if saves != [] {
      var q := saves[0];
      var r := Save(s, q.userId, q.fields, q.freshToken);
      SaveSpec(s, q.userId, q.fields, q.freshToken);
      SaveKeeps(s, q.userId, q.fields, q.freshToken, u);
      var next := if r.Ok? then r.value else s;
      TokenIssuedOnce(next, saves[1..], u);
    }
  }

  /** The first successful save of a user issues the generated token. */
  lemma FirstSaveIssuesToken(s: Store, userId: int, fields: BotFields, freshToken: string)
    requires Unique(s.rows) && ConfigOf(s.rows, userId).None?
    ensures Save(s, userId, fields, freshToken).Ok? <==> FindToken(s.rows, freshToken).None?
    ensures Save(s, userId, fields, freshToken).Ok? ==>
              ConfigOf(Save(s, userId, fields, freshToken).value.rows, userId)
              == Some(BotConfig(s.nextId, userId, fields, freshToken))
  {
    SaveKeeps(s, userId, fields, freshToken, userId);
  }

  /** The public context lookup: 404 for an unknown token, else the renamed
      fields of the configuration holding it. */
  function ContextFor(rows: seq<BotConfig>, token: string): (r: Result<BotContext>)
    ensures r.Err? <==> forall k :: 0 <= k < |rows| ==> rows[k].publicToken != token
    ensures r.Err? ==> r.error == HttpError(404, InvalidToken)
    ensures r.Ok? ==> exists k :: 0 <= k < |rows| && rows[k].publicToken == token && r.value == ContextOf(rows[k])
  {
    var k := FindToken(rows, token);
    if k.None? then Err(HttpError(404, InvalidToken)) else Ok(ContextOf(rows[k.value]))
  }

  class BotConfigTable {
    var rows: seq<BotConfig>
    var nextId: int

    ghost predicate Valid()
      reads this
    {
      Unique(rows)
    }

    constructor ()
      ensures rows == [] && nextId == 1 && Valid()
    {
      rows := [];
      nextId := 1;
    }

    /** GET /config: None is the empty object answered when the user has no
        configuration yet. */
    method GetConfig(userId: int) returns (r: Option<BotConfig>)
      ensures r == ConfigOf(rows, userId)
      ensures r.None? <==> forall k :: 0 <= k < |rows| ==> rows[k].userId != userId
      ensures r.Some? ==> r.value in rows && r.value.userId == userId
    {
      var k := FindUser(rows, userId);
      if k.None? {
        return None;
      }
      r := Some(rows[k.value]);
    }

    /** PUT /config: update-or-insert, answering the stored row. */
    method SaveConfig(userId: int, fields: BotFields, freshToken: string) returns (r: Result<BotConfig>)
      requires Valid()
      modifies this
      ensures Valid()
      ensures var s := Save(Store(old(rows), old(nextId)), userId, fields, freshToken);
        && (r.Err? <==> s.Err?)
        && (s.Err? ==> r.error == s.error && rows == old(rows) && nextId == old(nextId))
        && (s.Ok? ==> Store(rows, nextId) == s.value && Some(r.value) == ConfigOf(rows, userId))
    {
      var existing := FindUser(rows, userId);
      SaveSpec(Store(rows, nextId), userId, fields, freshToken);
      if existing.Some? {
        var updated := rows[existing.value].(fields := fields);
        rows := rows[existing.value := updated];
        assert FindUser(rows, userId) == existing;
        return Ok(updated);
      }
      if FindToken(rows, freshToken).Some? {
        return Err(HttpError(500, ServerError));
      }
      var created := BotConfig(nextId, userId, fields, freshToken);
      rows := rows + [created];
      nextId := nextId + 1;
      r := Ok(created);
    }

    /** GET /context/:token: depends on the token alone, not on any session. */
    method Context(token: string) returns (r: Result<BotContext>)
      ensures r == ContextFor(rows, token)
    {
      var k := FindToken(rows, token);
      if k.None? {
        return Err(HttpError(404, InvalidToken));
      }
      var config := rows[k.value];
      r := Ok(BotContext(config.fields.botName, config.fields.systemRole, config.fields.tonePersonality,
                         config.fields.businessContext, config.fields.constraints, config.fields.faqExamples));
    }
  }
}
