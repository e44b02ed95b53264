/** State of the built-in authorization server with a static identity: authorization codes, refresh
    grants, refresh tokens and the persisted image. Each function is one stretch of a request
    between two awaits. Codes, token hashes, grant ids, clients and scopes are opaque. */
module RefreshState {
  import opened Common

  type CodeId = nat
  type TokenHash = nat
  type GrantId = nat
  type RequestId = nat
  type Client = nat
  type Scope = nat

  datatype Code = Code(client: Client, redirectUri: nat, resource: nat, scopes: seq<Scope>, challenge: nat,
                       subject: nat, expiresAt: int)

  datatype Grant = Grant(
    client: Client, resource: nat, scopes: seq<Scope>, subject: nat,
    createdAt: int, idleExpiresAt: int, expiresAt: int)

  datatype Status = Active | Rotating | Used

  datatype Token = Token(grant: GrantId, status: Status)

  // What one image of the store file holds; the file is replaced by an atomic rename.
  datatype Image = Image(grants: map<GrantId, Grant>, tokens: map<TokenHash, Token>)

  // A request waiting for its access token to be signed.
  datatype Pending =
    | Exchange(code: CodeId, record: Code, now: int)
    | Rotation(token: TokenHash, grant: GrantId, scopes: seq<Scope>, now: int)

  datatype Source = FromCode(code: CodeId) | FromToken(token: TokenHash)

  // A success response.
  datatype Issue = Issue(source: Source, grant: GrantId, scopes: seq<Scope>)

  datatype Config = Config(idleTtl: nat, maxTtl: nat, maxRecords: nat, maxCodes: nat, durable: bool)

  // `issued`, `origin`, `everTokens` and `everCodes` are history: the success responses so far, each
  // grant as first issued, and the random values ever generated (which never repeat).
  datatype State = State(
    up: bool,
    codes: map<CodeId, Code>,
    grants: map<GrantId, Grant>,
    tokens: map<TokenHash, Token>,
    pending: map<RequestId, Pending>,
    disk: Option<Image>,
    issued: seq<Issue>,
    origin: map<GrantId, Grant>,
    everTokens: set<TokenHash>,
    everCodes: set<CodeId>)

  // ---------- grants and tokens ----------

  function KeepTokens(tokens: map<TokenHash, Token>, grants: map<GrantId, Grant>): map<TokenHash, Token> {
    map h | h in tokens && tokens[h].grant in grants :: tokens[h]
  }

  function RevokeGrant(s: State, g: GrantId): State {
    s.(grants := s.grants - {g}, tokens := KeepTokens(s.tokens, s.grants - {g}))
  }

  predicate Expired(grant: Grant, now: int) { grant.idleExpiresAt <= now || grant.expiresAt <= now }

  function LiveGrants(grants: map<GrantId, Grant>, now: int): map<GrantId, Grant> {
    map g | g in grants && !Expired(grants[g], now) :: grants[g]
  }

  function SweepGrants(s: State, now: int): State {
    s.(grants := LiveGrants(s.grants, now), tokens := KeepTokens(s.tokens, LiveGrants(s.grants, now)))
  }

  // A rotation in progress is written as if it had not begun.
  function Settled(tokens: map<TokenHash, Token>): map<TokenHash, Token> {
    map h | h in tokens :: if tokens[h].status.Rotating? then tokens[h].(status := Active) else tokens[h]
  }

  function ImageOf(s: State): Image { Image(s.grants, Settled(s.tokens)) }

  // Without a store file persisting does nothing and succeeds.
  function Persist(c: Config, s: State, diskOk: bool): State {
    if c.durable && diskOk then s.(disk := Some(ImageOf(s))) else s
  }

  predicate Persisted(c: Config, diskOk: bool) { !c.durable || diskOk }

  function SweepAndPersist(c: Config, s: State, now: int, diskOk: bool): State {
    var t := SweepGrants(s, now);
    if t.grants == s.grants then t else Persist(c, t, diskOk)
  }

  // ---------- authorization codes ----------

  function LiveCodes(codes: map<CodeId, Code>, now: int): map<CodeId, Code> {
    map k | k in codes && codes[k].expiresAt > now :: codes[k]
  }

  function AuthorizeCode(c: Config, s: State, code: CodeId, record: Code, now: int): State {
    var t := s.(codes := LiveCodes(s.codes, now));
    if |t.codes| >= c.maxCodes then t
    else t.(codes := t.codes[code := record], everCodes := t.everCodes + {code})
  }

  // The request names the client, redirect URI, resource and PKCE challenge the code was issued for.
  predicate Matches(record: Code, client: Client, redirectUri: nat, resource: Option<nat>, challenge: nat) {
    && client == record.client && redirectUri == record.redirectUri
    && (resource.Some? ==> resource.value == record.resource)
    && challenge == record.challenge
  }

  function AdmitExchange(c: Config, s: State, request: RequestId, code: CodeId, record: Code, now: int, diskOk: bool)
    : State
  {
    var swept := SweepAndPersist(c, s, now, diskOk);
    if |swept.tokens| >= c.maxRecords then swept
    else swept.(pending := swept.pending[request := Exchange(code, record, now)])
  }

  // Presenting a code uses it up, whatever the outcome.
  function BeginExchange(c: Config, s: State, request: RequestId, code: CodeId, client: Client, redirectUri: nat,
                         resource: Option<nat>, challenge: nat, now: int, diskOk: bool): State
  {
    var taken := s.(codes := s.codes - {code});
    if code !in s.codes || s.codes[code].expiresAt <= now then taken
    else if !Matches(s.codes[code], client, redirectUri, resource, challenge) then taken
    else AdmitExchange(c, taken, request, code, s.codes[code], now, diskOk)
  }

  function IssueGrant(c: Config, s: State, record: Code, now: int, token: TokenHash, grant: GrantId): State {
    var expiresAt := now + c.maxTtl;
    var issued := Grant(record.client, record.resource, record.scopes, record.subject,
                        now, Min(now + c.idleTtl, expiresAt), expiresAt);
    s.(grants := s.grants[grant := issued], tokens := s.tokens[token := Token(grant, Active)],
       origin := s.origin[grant := issued], everTokens := s.everTokens + {token})
  }

  function FinishExchange(c: Config, s: State, request: RequestId, signed: bool, token: TokenHash, grant: GrantId,
                          diskOk: bool): State
    requires request in s.pending && s.pending[request].Exchange?
  {
    var p := s.pending[request];
    var t := s.(pending := s.pending - {request});
    if !signed then t
    else
      var u := IssueGrant(c, t, p.record, p.now, token, grant);
      if !Persisted(c, diskOk) then RevokeGrant(u, grant)
      else Persist(c, u, diskOk).(issued := u.issued + [Issue(FromCode(p.code), grant, p.record.scopes)])
  }

  // ---------- refresh rotation ----------

  // The scopes a rotation grants, if the presented token is active and everything it asks for matches.
  function RotationScopes(s: State, token: TokenHash, client: Client, resource: Option<nat>, asked: Option<seq<Scope>>)
    : (r: Option<seq<Scope>>)
    requires token in s.tokens && s.tokens[token].grant in s.grants
    ensures r.Some? ==> forall k | 0 <= k < |r.value| :: r.value[k] in s.grants[s.tokens[token].grant].scopes
  {
    var grant := s.grants[s.tokens[token].grant];
    var scopes := if asked.None? then grant.scopes else asked.value;
    if client != grant.client || (resource.Some? && resource.value != grant.resource) then None
    else if exists k | 0 <= k < |scopes| :: scopes[k] !in grant.scopes then None
    else Some(scopes)
  }

  function AdmitRotation(c: Config, s: State, request: RequestId, token: TokenHash, scopes: seq<Scope>, now: int): State
    requires token in s.tokens
  {
    if |s.tokens| >= c.maxRecords then s
    else s.(tokens := s.tokens[token := Token(s.tokens[token].grant, Rotating)],
            pending := s.pending[request := Rotation(token, s.tokens[token].grant, scopes, now)])
  }

  // Presenting a token that is being rotated or was used revokes its whole family.
  function PresentToken(c: Config, s: State, request: RequestId, token: TokenHash, client: Client,
                        resource: Option<nat>, asked: Option<seq<Scope>>, now: int, revokeOk: bool): State
  {
    if token !in s.tokens || s.tokens[token].grant !in s.grants then s
    else if !s.tokens[token].status.Active? then Persist(c, RevokeGrant(s, s.tokens[token].grant), revokeOk)
    else
      match RotationScopes(s, token, client, resource, asked)
      case None => s
      case Some(scopes) => AdmitRotation(c, s, request, token, scopes, now)
  }

  function BeginRotation(c: Config, s: State, request: RequestId, token: TokenHash, client: Client,
                         resource: Option<nat>, asked: Option<seq<Scope>>, now: int, diskOk: bool,
                           revokeOk: bool): State
  {
    PresentToken(c, SweepAndPersist(c, s, now, diskOk), request, token, client, resource, asked, now, revokeOk)
  }

  function FinishRotation(c: Config, s: State, request: RequestId, signed: bool, rotated: TokenHash, diskOk: bool)
    : State
    requires request in s.pending && s.pending[request].Rotation?
  {
    var p := s.pending[request];
    var t := s.(pending := s.pending - {request});
    var held := p.grant in s.grants && p.token in s.tokens && s.tokens[p.token] == Token(p.grant, Rotating);
    if !held then t
    else if !signed then t.(tokens := t.tokens[p.token := Token(p.grant, Active)])
    else
      var grant := t.grants[p.grant];
      if !Persisted(c, diskOk) then
        // Written and undone in one stretch: the new token is removed and the old one is active again.
        t.(tokens := t.tokens[p.token := Token(p.grant, Active)], everTokens := t.everTokens + {rotated})
      else
        var u := t.(tokens := t.tokens[p.token := Token(p.grant, Used)][rotated := Token(p.grant, Active)],
                    grants := t.grants[p.grant := grant.(idleExpiresAt := Min(p.now + c.idleTtl, grant.expiresAt))],
                    everTokens := t.everTokens + {rotated});
        Persist(c, u, diskOk).(issued := u.issued + [Issue(FromToken(p.token), p.grant, p.scopes)])
  }

  // ---------- sweep and restart ----------

  function SweepAll(c: Config, s: State, now: int, diskOk: bool): State {
    SweepAndPersist(c, s.(codes := LiveCodes(s.codes, now)), now, diskOk)
  }

  predicate SoleActive(image: Image, g: GrantId, h: TokenHash) {
    && h in image.tokens && image.tokens[h] == Token(g, Active)
    && forall k | k in image.tokens && image.tokens[k] == Token(g, Active) :: k == h
  }

  predicate TimesWithin(grants: map<GrantId, Grant>) {
    forall g | g in grants :: 0 <= grants[g].createdAt <= grants[g].idleExpiresAt <= grants[g].expiresAt
  }

  predicate TokensFit(image: Image) {
    forall h | h in image.tokens :: image.tokens[h].grant in image.grants && !image.tokens[h].status.Rotating?
  }

  ghost predicate HasOneActive(image: Image, g: GrantId) { exists h: TokenHash :: SoleActive(image, g, h) }

  ghost predicate EachHasOneActive(image: Image) { forall g | g in image.grants :: HasOneActive(image, g) }

  // What loading demands of an image: within capacity, timestamps ordered, tokens of known grants
  // that are active or used, and exactly one active token for each grant.
  ghost predicate Accepts(image: Image, maxRecords: nat) {
    |image.tokens| <= maxRecords && TimesWithin(image.grants) && TokensFit(image) && EachHasOneActive(image)
  }

  function Stopped(s: State): State {
    s.(up := false, codes := map[], grants := map[], tokens := map[], pending := map[])
  }

  // Loading an accepted image drops expired grants and must write back what it dropped.
  function Load(c: Config, s: State, image: Image, now: int, diskOk: bool): State {
    var loaded := Stopped(s).(up := true, grants := image.grants, tokens := image.tokens);
    var swept := SweepGrants(loaded, now);
    if swept.grants == loaded.grants then swept
    else if diskOk then Persist(c, swept, true)
    else Stopped(s)
  }

  // A new process starts from the image, and refuses to start on one it rejects.
  ghost function Restart(c: Config, s: State, now: int, diskOk: bool): State {
    var empty := Stopped(s).(up := true);
    if !c.durable then empty
    else if s.disk.None? then if diskOk then Persist(c, empty, true) else Stopped(s)
    else if !Accepts(s.disk.value, c.maxRecords) then Stopped(s)
    else Load(c, s, s.disk.value, now, diskOk)
  }
}
