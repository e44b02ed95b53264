/** Refresh token rotation over every interleaving of requests, sweeps, failures and restarts. */
module RefreshRotation {
  import opened Common
  import opened RefreshState

  datatype Step =
    | Authorize(code: CodeId, record: Code, now: int)
    | StartExchange(request: RequestId, code: CodeId, client: Client, redirectUri: nat, resource: Option<nat>,
                    challenge: nat, now: int, diskOk: bool)
    | EndExchange(request: RequestId, signed: bool, token: TokenHash, grant: GrantId, diskOk: bool)
    | StartRotation(request: RequestId, token: TokenHash, client: Client, resource: Option<nat>,
                    asked: Option<seq<Scope>>, now: int, diskOk: bool, revokeOk: bool)
    | EndRotation(request: RequestId, signed: bool, rotated: TokenHash, diskOk: bool)
    | Sweep(now: int, diskOk: bool)
    | NewProcess(now: int, diskOk: bool)

  // A stopped server serves nothing, and random values are new.
  predicate Enabled(s: State, step: Step) {
    match step
    case Authorize(code, _, _) => s.up && code !in s.everCodes
    case StartExchange(r, _, _, _, _, _, _, _) => s.up && r !in s.pending
    case EndExchange(r, _, token, grant, _) =>
      s.up && r in s.pending && s.pending[r].Exchange? && token !in s.everTokens && grant !in s.origin
    case StartRotation(r, _, _, _, _, _, _, _) => s.up && r !in s.pending
    case EndRotation(r, _, rotated, _) => s.up && r in s.pending && s.pending[r].Rotation? && rotated !in s.everTokens
    case Sweep(_, _) => s.up
    case NewProcess(_, _) => true
  }

  ghost function Apply(c: Config, s: State, step: Step): State {
    if !Enabled(s, step) then s else
    match step
    case Authorize(code, record, now) => AuthorizeCode(c, s, code, record, now)
    case StartExchange(r, code, client, uri, resource, challenge, now, ok) =>
      BeginExchange(c, s, r, code, client, uri, resource, challenge, now, ok)
    case EndExchange(r, signed, token, grant, ok) => FinishExchange(c, s, r, signed, token, grant, ok)
    case StartRotation(r, token, client, resource, asked, now, ok, revokeOk) =>
      BeginRotation(c, s, r, token, client, resource, asked, now, ok, revokeOk)
    case EndRotation(r, signed, rotated, ok) => FinishRotation(c, s, r, signed, rotated, ok)
    case Sweep(now, ok) => SweepAll(c, s, now, ok)
    case NewProcess(now, ok) => Restart(c, s, now, ok)
  }

  const FRESH: State := State(true, map[], map[], map[], map[], None, [], map[], {}, {})

  ghost function Run(c: Config, s: State, steps: seq<Step>): State
    decreases |steps|
  {
    if steps == [] then s else Apply(c, Run(c, s, steps[..|steps| - 1]), steps[|steps| - 1])
  }

  // ---------- what every step keeps ----------

  predicate Live(tokens: map<TokenHash, Token>, h: TokenHash, g: GrantId) {
    h in tokens && tokens[h].grant == g && !tokens[h].status.Used?
  }

  // Each grant has exactly one token that is active or rotating, and no token outlives its grant.
  ghost predicate OneLiveToken(grants: map<GrantId, Grant>, tokens: map<TokenHash, Token>) {
    && (forall h | h in tokens :: tokens[h].grant in grants)
    && (forall g | g in grants :: exists h :: Live(tokens, h, g))
    && (forall g, h, k | Live(tokens, h, g) && Live(tokens, k, g) :: h == k)
  }

  // A grant differs from the grant first issued only in its idle expiry, which never passes its
  // absolute expiry.
  ghost predicate FromOrigin(grants: map<GrantId, Grant>, origin: map<GrantId, Grant>) {
    forall g | g in grants ::
      && g in origin && grants[g] == origin[g].(idleExpiresAt := grants[g].idleExpiresAt)
      && grants[g].idleExpiresAt <= grants[g].expiresAt
  }

  predicate Spent(issued: seq<Issue>, source: Source) {
    exists i | 0 <= i < |issued| :: issued[i].source == source
  }

  // A token that produced a success is used, or gone.
  ghost predicate SpentTokensAreUsed(issued: seq<Issue>, tokens: map<TokenHash, Token>) {
    forall h | h in tokens && Spent(issued, FromToken(h)) :: tokens[h].status.Used?
  }

  predicate PendingOk(s: State, r: RequestId)
    requires r in s.pending
  {
    match s.pending[r]
    case Exchange(code, record, _) => code in s.everCodes && code !in s.codes && !Spent(s.issued, FromCode(code))
    case Rotation(h, g, scopes, _) =>
      && g in s.origin && (forall k | 0 <= k < |scopes| :: scopes[k] in s.origin[g].scopes)
      && h in s.everTokens
      && (if g in s.grants then h in s.tokens && s.tokens[h] == Token(g, Rotating) else h !in s.tokens)
  }

  // Two requests never wait on the same code or on the same live token.
  ghost predicate PendingApart(s: State) {
    forall r, q | r in s.pending && q in s.pending && r != q ::
      && (s.pending[r].Exchange? && s.pending[q].Exchange? ==> s.pending[r].code != s.pending[q].code)
      && (s.pending[r].Rotation? && s.pending[q].Rotation? && s.pending[r].grant in s.grants ==>
            s.pending[r].token != s.pending[q].token)
  }

  predicate Holder(pending: map<RequestId, Pending>, r: RequestId, h: TokenHash, g: GrantId) {
    r in pending && pending[r].Rotation? && pending[r].token == h && pending[r].grant == g
  }

  // A rotating token is always held by a waiting request, so none is stuck.
  ghost predicate RotatingIsHeld(s: State) {
    forall h | h in s.tokens && s.tokens[h].status.Rotating? ::
      exists r :: Holder(s.pending, r, h, s.tokens[h].grant)
  }

  ghost predicate ImageOk(s: State, image: Image) {
    && OneLiveToken(image.grants, image.tokens)
    && (forall h | h in image.tokens :: !image.tokens[h].status.Rotating? && h in s.everTokens)
    && FromOrigin(image.grants, s.origin)
    && SpentTokensAreUsed(s.issued, image.tokens)
  }

  ghost predicate IssuedOk(s: State) {
    && (forall i | 0 <= i < |s.issued| ::
          && s.issued[i].grant in s.origin
          && (forall k | 0 <= k < |s.issued[i].scopes| :: s.issued[i].scopes[k] in s.origin[s.issued[i].grant].scopes))
    && (forall i, j | 0 <= i < j < |s.issued| :: s.issued[i].source != s.issued[j].source)
    && (forall i | 0 <= i < |s.issued| ::
          match s.issued[i].source
          case FromCode(code) => code in s.everCodes && s.issued[i].scopes == s.origin[s.issued[i].grant].scopes
          case FromToken(h) => h in s.everTokens)
  }

  ghost predicate Memory(s: State) {
    && OneLiveToken(s.grants, s.tokens)
    && FromOrigin(s.grants, s.origin)
    && (forall h | h in s.tokens :: h in s.everTokens)
    && SpentTokensAreUsed(s.issued, s.tokens)
  }

  ghost predicate Requests(s: State) {
    && (forall k | k in s.codes :: k in s.everCodes && !Spent(s.issued, FromCode(k)))
    && (forall r | r in s.pending :: PendingOk(s, r))
    && PendingApart(s)
    && RotatingIsHeld(s)
  }

  ghost predicate Inv(c: Config, s: State) {
    && Memory(s)
    && Requests(s)
    && IssuedOk(s)
    && (s.disk.Some? ==> c.durable && ImageOk(s, s.disk.value))
  }

  // ---------- grants and tokens ----------

  lemma KeepsOneLiveToken(grants: map<GrantId, Grant>, tokens: map<TokenHash, Token>, kept: map<GrantId, Grant>)
    requires OneLiveToken(grants, tokens) && kept.Keys <= grants.Keys
    ensures OneLiveToken(kept, KeepTokens(tokens, kept))
  {
    assert forall h, g :: Live(KeepTokens(tokens, kept), h, g) ==> Live(tokens, h, g);
    forall g | g in kept ensures exists h :: Live(KeepTokens(tokens, kept), h, g) {
      assert g in grants;
      var h :| Live(tokens, h, g);
      assert Live(KeepTokens(tokens, kept), h, g);
    }
  }

  lemma SettledKeepsOneLiveToken(grants: map<GrantId, Grant>, tokens: map<TokenHash, Token>)
    requires OneLiveToken(grants, tokens)
    ensures OneLiveToken(grants, Settled(tokens))
  {
    var settled := Settled(tokens);
    assert forall h, g :: Live(settled, h, g) <==> Live(tokens, h, g);
    forall g | g in grants ensures exists h :: Live(settled, h, g) {
      var h :| Live(tokens, h, g);
      assert Live(settled, h, g);
    }
  }

  lemma SettledTokens(tokens: map<TokenHash, Token>, issued: seq<Issue>)
    requires SpentTokensAreUsed(issued, tokens)
    ensures SpentTokensAreUsed(issued, Settled(tokens))
    ensures Settled(tokens).Keys == tokens.Keys
            && forall h | h in Settled(tokens) :: !Settled(tokens)[h].status.Rotating?
  {
    forall h | h in Settled(tokens) && Spent(issued, FromToken(h)) ensures Settled(tokens)[h].status.Used? {
      assert h in tokens;
    }
  }

  lemma ImageOfIsOk(s: State)
    requires Memory(s)
    ensures ImageOk(s, ImageOf(s))
  {
    var image := ImageOf(s);
    assert OneLiveToken(image.grants, image.tokens) by { SettledKeepsOneLiveToken(s.grants, s.tokens); }
    SettledTokens(s.tokens, s.issued);
    assert forall h | h in image.tokens :: !image.tokens[h].status.Rotating? && h in s.everTokens;
  }

  lemma PersistKeepsInv(c: Config, s: State, diskOk: bool)
    requires Inv(c, s)
    ensures Inv(c, Persist(c, s, diskOk))
  {
    var t := Persist(c, s, diskOk);
    ImageOfIsOk(s);
    SameRequests(s, t);
    assert t.disk.Some? ==> ImageOk(s, t.disk.value);
  }

  // Requests depend on memory and history only.
  lemma SameRequests(s: State, t: State)
    requires Requests(s) && t.codes == s.codes && t.grants == s.grants && t.tokens == s.tokens && t.pending == s.pending
    requires t.origin == s.origin && t.issued == s.issued && s.everCodes <= t.everCodes && s.everTokens <= t.everTokens
    ensures Requests(t)
  {
    forall r | r in t.pending ensures PendingOk(t, r) { assert PendingOk(s, r); }
    forall h | h in t.tokens && t.tokens[h].status.Rotating?
      ensures exists r :: Holder(t.pending, r, h, t.tokens[h].grant)
    {
      var r :| Holder(s.pending, r, h, s.tokens[h].grant);
      assert Holder(t.pending, r, h, t.tokens[h].grant);
    }
  }

  // ---------- dropping grants, codes ----------

  // Some grants are dropped, each with all its tokens.
  predicate Shrinks(s: State, t: State) {
    && (forall g | g in t.grants :: g in s.grants && t.grants[g] == s.grants[g])
    && t == s.(grants := t.grants, tokens := KeepTokens(s.tokens, t.grants))
  }

  lemma ShrinkKeepsInv(c: Config, s: State, t: State)
    requires Inv(c, s) && Shrinks(s, t)
    ensures Inv(c, t)
  {
    assert t.grants.Keys <= s.grants.Keys;
    KeepsOneLiveToken(s.grants, s.tokens, t.grants);
    forall r | r in t.pending ensures PendingOk(t, r) { assert PendingOk(s, r); }
    forall h | h in t.tokens && t.tokens[h].status.Rotating?
      ensures exists r :: Holder(t.pending, r, h, t.tokens[h].grant)
    {
      var r :| Holder(s.pending, r, h, s.tokens[h].grant);
      assert Holder(t.pending, r, h, t.tokens[h].grant);
    }
    assert t.disk.Some? ==> ImageOk(t, t.disk.value);
  }

  lemma SweepKeepsInv(c: Config, s: State, now: int, diskOk: bool)
    requires Inv(c, s)
    ensures Inv(c, SweepAndPersist(c, s, now, diskOk))
  {
    var t := SweepGrants(s, now);
    ShrinkKeepsInv(c, s, t);
    PersistKeepsInv(c, t, diskOk);
  }

  lemma RevokeKeepsInv(c: Config, s: State, g: GrantId, diskOk: bool)
    requires Inv(c, s)
    ensures Inv(c, Persist(c, RevokeGrant(s, g), diskOk))
  {
    ShrinkKeepsInv(c, s, RevokeGrant(s, g));
    PersistKeepsInv(c, RevokeGrant(s, g), diskOk);
  }

  lemma DropCodesKeepsInv(c: Config, s: State, t: State)
    requires Inv(c, s) && t == s.(codes := t.codes)
    requires forall k | k in t.codes :: k in s.codes
    ensures Inv(c, t)
  {
    forall r | r in t.pending ensures PendingOk(t, r) { assert PendingOk(s, r); }
    forall h | h in t.tokens && t.tokens[h].status.Rotating?
      ensures exists r :: Holder(t.pending, r, h, t.tokens[h].grant)
    {
      var r :| Holder(s.pending, r, h, s.tokens[h].grant);
      assert Holder(t.pending, r, h, t.tokens[h].grant);
    }
    assert t.disk.Some? ==> ImageOk(t, t.disk.value);
  }

  // ---------- each step keeps the invariant ----------

  lemma AuthorizeKeepsInv(c: Config, s: State, code: CodeId, record: Code, now: int)
    requires Inv(c, s) && code !in s.everCodes
    ensures Inv(c, AuthorizeCode(c, s, code, record, now))
  {
    var t := s.(codes := LiveCodes(s.codes, now));
    DropCodesKeepsInv(c, s, t);
    var u := AuthorizeCode(c, s, code, record, now);
    if u != t {
      forall r | r in u.pending ensures PendingOk(u, r) { assert PendingOk(t, r); }
      forall h | h in u.tokens && u.tokens[h].status.Rotating?
        ensures exists r :: Holder(u.pending, r, h, u.tokens[h].grant)
      {
        var r :| Holder(t.pending, r, h, t.tokens[h].grant);
      assert Holder(u.pending, r, h, u.tokens[h].grant);
      }
      assert !Spent(u.issued, FromCode(code));
      assert u.disk.Some? ==> ImageOk(t, u.disk.value);
    }
  }

  // A waiting request is added.
  lemma WaitKeepsInv(c: Config, s: State, request: RequestId, code: CodeId, record: Code, now: int)
    requires Inv(c, s) && request !in s.pending
    requires code in s.everCodes && code !in s.codes && !Spent(s.issued, FromCode(code))
    requires forall q | q in s.pending && s.pending[q].Exchange? :: s.pending[q].code != code
    ensures Inv(c, s.(pending := s.pending[request := Exchange(code, record, now)]))
  {
    var t := s.(pending := s.pending[request := Exchange(code, record, now)]);
    forall r | r in t.pending ensures PendingOk(t, r) { if r != request { assert PendingOk(s, r); } }
    forall h | h in t.tokens && t.tokens[h].status.Rotating?
      ensures exists r :: Holder(t.pending, r, h, t.tokens[h].grant)
    {
      var r :| Holder(s.pending, r, h, s.tokens[h].grant);
      assert Holder(t.pending, r, h, t.tokens[h].grant);
    }
    assert t.disk.Some? ==> ImageOk(s, t.disk.value);
  }

  lemma StartExchangeKeepsInv(c: Config, s: State, request: RequestId, code: CodeId, client: Client, redirectUri: nat,
                              resource: Option<nat>, challenge: nat, now: int, diskOk: bool)
    requires Inv(c, s) && request !in s.pending
    ensures Inv(c, BeginExchange(c, s, request, code, client, redirectUri, resource, challenge, now, diskOk))
  {
    var taken := s.(codes := s.codes - {code});
    DropCodesKeepsInv(c, s, taken);
    if code in s.codes {
      TakenCode(c, s, code);
      TakenCodeKeepsInv(c, taken, request, code, s.codes[code], now, diskOk);
    }
  }

  lemma TakenCode(c: Config, s: State, code: CodeId)
    requires Inv(c, s) && code in s.codes
    ensures code in s.everCodes && !Spent(s.issued, FromCode(code))
    ensures forall q | q in s.pending && s.pending[q].Exchange? :: s.pending[q].code != code
  {
    forall q | q in s.pending && s.pending[q].Exchange? ensures s.pending[q].code != code { assert PendingOk(s, q); }
  }

  lemma TakenCodeKeepsInv(c: Config, taken: State, request: RequestId, code: CodeId, record: Code, now: int,
                          diskOk: bool)
    requires Inv(c, taken) && request !in taken.pending && code !in taken.codes
    requires code in taken.everCodes && !Spent(taken.issued, FromCode(code))
    requires forall q | q in taken.pending && taken.pending[q].Exchange? :: taken.pending[q].code != code
    ensures Inv(c, AdmitExchange(c, taken, request, code, record, now, diskOk))
  {
    SweepKeepsInv(c, taken, now, diskOk);
    WaitKeepsInv(c, SweepAndPersist(c, taken, now, diskOk), request, code, record, now);
  }

  // A waiting request that leaves without touching its token.
  lemma LeaveKeepsInv(c: Config, s: State, request: RequestId)
    requires Inv(c, s) && request in s.pending
    requires s.pending[request].Rotation? ==>
               !(s.pending[request].grant in s.grants && s.pending[request].token in s.tokens
                 && s.tokens[s.pending[request].token] == Token(s.pending[request].grant, Rotating))
    ensures Inv(c, s.(pending := s.pending - {request}))
  {
    var t := s.(pending := s.pending - {request});
    forall r | r in t.pending ensures PendingOk(t, r) { assert PendingOk(s, r); }
    forall h | h in t.tokens && t.tokens[h].status.Rotating?
      ensures exists r :: Holder(t.pending, r, h, t.tokens[h].grant)
    {
      var r :| Holder(s.pending, r, h, s.tokens[h].grant);
      assert s.tokens[h].grant in s.grants;
      assert r != request;
      assert Holder(t.pending, r, h, t.tokens[h].grant);
    }
    assert t.disk.Some? ==> ImageOk(s, t.disk.value);
  }

  lemma AddGrantKeepsOneLiveToken(grants: map<GrantId, Grant>, tokens: map<TokenHash, Token>, g: GrantId, grant: Grant,
                                  h: TokenHash)
    requires OneLiveToken(grants, tokens) && g !in grants && h !in tokens
    ensures OneLiveToken(grants[g := grant], tokens[h := Token(g, Active)])
  {
    var tokens' := tokens[h := Token(g, Active)];
    assert Live(tokens', h, g);
    forall k | k in grants ensures exists m :: Live(tokens', m, k) {
      var m :| Live(tokens, m, k);
      assert Live(tokens', m, k);
    }
    forall k, a, b | Live(tokens', a, k) && Live(tokens', b, k) ensures a == b {
      if k != g { assert Live(tokens, a, k) && Live(tokens, b, k); }
    }
  }

  lemma IssueKeepsMemory(c: Config, s: State, record: Code, now: int, token: TokenHash, grant: GrantId)
    requires Memory(s) && IssuedOk(s) && token !in s.everTokens && grant !in s.origin
    ensures Memory(IssueGrant(c, s, record, now, token, grant))
  {
    var t := IssueGrant(c, s, record, now, token, grant);
    AddGrantKeepsOneLiveToken(s.grants, s.tokens, grant, t.grants[grant], token);
    assert !Spent(s.issued, FromToken(token));
  }

  lemma IssueKeepsRequests(c: Config, s: State, record: Code, now: int, token: TokenHash, grant: GrantId)
    requires Requests(s) && token !in s.everTokens && token !in s.tokens && grant !in s.origin
             && FromOrigin(s.grants, s.origin)
    ensures Requests(IssueGrant(c, s, record, now, token, grant))
  {
    var t := IssueGrant(c, s, record, now, token, grant);
    forall r | r in t.pending ensures PendingOk(t, r) && (t.pending[r].Rotation? ==> t.pending[r].grant != grant) {
      assert PendingOk(s, r);
    }
    forall h | h in t.tokens && t.tokens[h].status.Rotating?
      ensures exists r :: Holder(t.pending, r, h, t.tokens[h].grant)
    {
      var r :| Holder(s.pending, r, h, s.tokens[h].grant);
      assert Holder(t.pending, r, h, t.tokens[h].grant);
    }
  }

  // Growing history does not hurt an image.
  lemma ImageSurvives(s: State, t: State, image: Image)
    requires ImageOk(s, image) && t.issued == s.issued && s.everTokens <= t.everTokens
    requires forall g | g in s.origin :: g in t.origin && t.origin[g] == s.origin[g]
    ensures ImageOk(t, image)
  {
  }

  lemma IssueKeepsInv(c: Config, s: State, record: Code, now: int, token: TokenHash, grant: GrantId)
    requires Inv(c, s) && token !in s.everTokens && grant !in s.origin
    ensures Inv(c, IssueGrant(c, s, record, now, token, grant))
  {
    var t := IssueGrant(c, s, record, now, token, grant);
    IssueKeepsMemory(c, s, record, now, token, grant);
    IssueKeepsRequests(c, s, record, now, token, grant);
    if s.disk.Some? { ImageSurvives(s, t, s.disk.value); }
  }

  // A success response is recorded: its source was never answered before and is spent in memory and on disk.
  lemma AnswerKeepsInv(c: Config, s: State, issue: Issue)
    requires Inv(c, s) && !Spent(s.issued, issue.source)
    requires issue.grant in s.origin
             && (forall k | 0 <= k < |issue.scopes| :: issue.scopes[k] in s.origin[issue.grant].scopes)
    requires match issue.source
             case FromCode(code) =>
               && code in s.everCodes && code !in s.codes && issue.scopes == s.origin[issue.grant].scopes
               && (forall r | r in s.pending && s.pending[r].Exchange? :: s.pending[r].code != code)
             case FromToken(h) =>
               && h in s.everTokens && (h in s.tokens ==> s.tokens[h].status.Used?)
               && (s.disk.Some? && h in s.disk.value.tokens ==> s.disk.value.tokens[h].status.Used?)
    ensures Inv(c, s.(issued := s.issued + [issue]))
  {
    var t := s.(issued := s.issued + [issue]);
    forall source ensures Spent(t.issued, source) <==> Spent(s.issued, source) || source == issue.source {
      SpentExtends(s.issued, issue, source);
    }
    forall r | r in t.pending ensures PendingOk(t, r) { assert PendingOk(s, r); }
    assert IssuedOk(t) by {
      forall i, j | 0 <= i < j < |t.issued| ensures t.issued[i].source != t.issued[j].source {
        if j == |s.issued| { assert s.issued[i].source != issue.source; }
      }
    }
    forall h | h in t.tokens && t.tokens[h].status.Rotating?
      ensures exists r :: Holder(t.pending, r, h, t.tokens[h].grant)
    {
      var r :| Holder(s.pending, r, h, s.tokens[h].grant);
      assert Holder(t.pending, r, h, t.tokens[h].grant);
    }
    assert t.disk.Some? ==> ImageOk(s, t.disk.value);
  }

  lemma SpentExtends(issued: seq<Issue>, issue: Issue, source: Source)
    ensures Spent(issued + [issue], source) <==> Spent(issued, source) || source == issue.source
  {
    var all := issued + [issue];
    assert all[|issued|] == issue;
    if Spent(issued, source) {
      var i :| 0 <= i < |issued| && issued[i].source == source;
      assert all[i] == issued[i];
    }
    if Spent(all, source) {
      var i :| 0 <= i < |all| && all[i].source == source;
      assert i < |issued| ==> all[i] == issued[i];
    }
  }

  lemma EndExchangeKeepsInv(c: Config, s: State, request: RequestId, signed: bool, token: TokenHash, grant: GrantId,
                            diskOk: bool)
    requires Inv(c, s) && request in s.pending && s.pending[request].Exchange?
    requires token !in s.everTokens && grant !in s.origin
    ensures Inv(c, FinishExchange(c, s, request, signed, token, grant, diskOk))
  {
    var p := s.pending[request];
    var t := s.(pending := s.pending - {request});
    LeaveKeepsInv(c, s, request);
    if signed {
      var u := IssueGrant(c, t, p.record, p.now, token, grant);
      IssueKeepsInv(c, t, p.record, p.now, token, grant);
      if !Persisted(c, diskOk) {
        ShrinkKeepsInv(c, u, RevokeGrant(u, grant));
      } else {
        PersistKeepsInv(c, u, diskOk);
        assert PendingOk(s, request);
        forall r | r in t.pending && t.pending[r].Exchange? ensures t.pending[r].code != p.code {
          assert r in s.pending && r != request;
        }
        AnswerKeepsInv(c, Persist(c, u, diskOk), Issue(FromCode(p.code), grant, p.record.scopes));
      }
    }
  }

  lemma StatusChangeKeepsOneLiveToken(grants: map<GrantId, Grant>, tokens: map<TokenHash, Token>, h: TokenHash,
                                      status: Status)
    requires OneLiveToken(grants, tokens) && h in tokens && !tokens[h].status.Used? && !status.Used?
    ensures OneLiveToken(grants, tokens[h := Token(tokens[h].grant, status)])
  {
    var tokens' := tokens[h := Token(tokens[h].grant, status)];
    assert forall k, g :: Live(tokens', k, g) <==> Live(tokens, k, g);
    forall g | g in grants ensures exists k :: Live(tokens', k, g) {
      var k :| Live(tokens, k, g);
      assert Live(tokens', k, g);
    }
  }

  lemma AdmitRotationKeepsInv(c: Config, s: State, request: RequestId, token: TokenHash, scopes: seq<Scope>, now: int)
    requires Inv(c, s) && request !in s.pending
    requires token in s.tokens && s.tokens[token].status.Active? && s.tokens[token].grant in s.grants
    requires forall k | 0 <= k < |scopes| :: scopes[k] in s.grants[s.tokens[token].grant].scopes
    ensures Inv(c, AdmitRotation(c, s, request, token, scopes, now))
  {
    var t := AdmitRotation(c, s, request, token, scopes, now);
    if t != s {
      var g := s.tokens[token].grant;
      StatusChangeKeepsOneLiveToken(s.grants, s.tokens, token, Rotating);
      assert Memory(t) by {
        forall h | h in t.tokens && Spent(t.issued, FromToken(h)) ensures t.tokens[h].status.Used? {
          assert h in s.tokens;
        }
      }
      assert Requests(t) by { AdmitRotationKeepsRequests(s, t, request, token, g, scopes, now); }
      assert t.disk.Some? ==> ImageOk(s, t.disk.value);
    }
  }

  lemma AdmitRotationKeepsRequests(s: State, t: State, request: RequestId, token: TokenHash, g: GrantId,
                                   scopes: seq<Scope>, now: int)
    requires Requests(s) && FromOrigin(s.grants, s.origin) && request !in s.pending
    requires token in s.tokens && s.tokens[token] == Token(g, Active) && g in s.grants && token in s.everTokens
    requires forall k | 0 <= k < |scopes| :: scopes[k] in s.grants[g].scopes
    requires t == s.(tokens := s.tokens[token := Token(g, Rotating)],
                     pending := s.pending[request := Rotation(token, g, scopes, now)])
    ensures Requests(t)
  {
    // Nobody else waits on this token: it would be rotating already.
    forall r | r in s.pending && s.pending[r].Rotation? ensures s.pending[r].token != token {
      assert PendingOk(s, r);
    }
    forall r | r in t.pending ensures PendingOk(t, r) {
      if r != request { assert PendingOk(s, r); }
    }
    forall h | h in t.tokens && t.tokens[h].status.Rotating?
      ensures exists r :: Holder(t.pending, r, h, t.tokens[h].grant)
    {
      if h == token {
        assert Holder(t.pending, request, h, g);
      } else {
        var r :| Holder(s.pending, r, h, s.tokens[h].grant);
        assert Holder(t.pending, r, h, t.tokens[h].grant);
      }
    }
  }

  lemma PresentKeepsInv(c: Config, s: State, request: RequestId, token: TokenHash, client: Client,
                        resource: Option<nat>, asked: Option<seq<Scope>>, now: int, revokeOk: bool)
    requires Inv(c, s) && request !in s.pending
    ensures Inv(c, PresentToken(c, s, request, token, client, resource, asked, now, revokeOk))
  {
    if token in s.tokens && s.tokens[token].grant in s.grants {
      if !s.tokens[token].status.Active? {
        RevokeKeepsInv(c, s, s.tokens[token].grant, revokeOk);
      } else {
        var scopes := RotationScopes(s, token, client, resource, asked);
        if scopes.Some? { AdmitRotationKeepsInv(c, s, request, token, scopes.value, now); }
      }
    }
  }

  lemma StartRotationKeepsInv(c: Config, s: State, request: RequestId, token: TokenHash, client: Client,
                              resource: Option<nat>, asked: Option<seq<Scope>>, now: int, diskOk: bool, revokeOk: bool)
    requires Inv(c, s) && request !in s.pending
    ensures Inv(c, BeginRotation(c, s, request, token, client, resource, asked, now, diskOk, revokeOk))
  {
    SweepKeepsInv(c, s, now, diskOk);
    PresentKeepsInv(c, SweepAndPersist(c, s, now, diskOk), request, token, client, resource, asked, now, revokeOk);
  }

  // The waiting rotation ends with its token active again: signing or persisting failed.
  function Reactivated(s: State, request: RequestId, generated: set<TokenHash>): State
    requires request in s.pending && s.pending[request].Rotation?
  {
    var p := s.pending[request];
    s.(pending := s.pending - {request}, tokens := s.tokens[p.token := Token(p.grant, Active)],
       everTokens := s.everTokens + generated)
  }

  lemma OthersWaitElsewhere(s: State, request: RequestId)
    requires Requests(s) && request in s.pending && s.pending[request].Rotation? && s.pending[request].grant in s.grants
    ensures forall r | r in s.pending && r != request
            && s.pending[r].Rotation? :: s.pending[r].token != s.pending[request].token
  {
  }

  lemma ReactivatedKeepsRequests(s: State, request: RequestId, generated: set<TokenHash>)
    requires Requests(s) && request in s.pending && s.pending[request].Rotation? && s.pending[request].grant in s.grants
    ensures Requests(Reactivated(s, request, generated))
  {
    var t, p := Reactivated(s, request, generated), s.pending[request];
    assert PendingOk(s, request);
    OthersWaitElsewhere(s, request);
    forall r | r in t.pending ensures PendingOk(t, r) { assert PendingOk(s, r); }
    forall h | h in t.tokens && t.tokens[h].status.Rotating?
      ensures exists r :: Holder(t.pending, r, h, t.tokens[h].grant)
    {
      var r :| Holder(s.pending, r, h, s.tokens[h].grant);
      assert Holder(t.pending, r, h, t.tokens[h].grant);
    }
  }

  lemma ReactivatedKeepsInv(c: Config, s: State, request: RequestId, generated: set<TokenHash>)
    requires Inv(c, s) && request in s.pending && s.pending[request].Rotation? && s.pending[request].grant in s.grants
    ensures Inv(c, Reactivated(s, request, generated))
  {
    var t, p := Reactivated(s, request, generated), s.pending[request];
    assert PendingOk(s, request);
    StatusChangeKeepsOneLiveToken(s.grants, s.tokens, p.token, Active);
    ReactivatedKeepsRequests(s, request, generated);
    forall h | h in t.tokens && Spent(t.issued, FromToken(h)) ensures t.tokens[h].status.Used? { assert h in s.tokens; }
    if s.disk.Some? { ImageSurvives(s, t, s.disk.value); }
  }

  // The waiting rotation succeeds in memory: the old token is used, the new one active.
  function Rotated(c: Config, s: State, request: RequestId, rotated: TokenHash): State
    requires request in s.pending && s.pending[request].Rotation? && s.pending[request].grant in s.grants
  {
    var p := s.pending[request];
    var grant := s.grants[p.grant];
    s.(pending := s.pending - {request},
       tokens := s.tokens[p.token := Token(p.grant, Used)][rotated := Token(p.grant, Active)],
       grants := s.grants[p.grant := grant.(idleExpiresAt := Min(p.now + c.idleTtl, grant.expiresAt))],
       everTokens := s.everTokens + {rotated})
  }

  lemma RotatedKeepsOneLiveToken(grants: map<GrantId, Grant>, tokens: map<TokenHash, Token>, h: TokenHash,
                                 k: TokenHash, grant: Grant)
    requires OneLiveToken(grants, tokens) && h in tokens && !tokens[h].status.Used? && k !in tokens
    ensures OneLiveToken(grants[tokens[h].grant := grant],
                         tokens[h := Token(tokens[h].grant, Used)][k := Token(tokens[h].grant, Active)])
  {
    var g := tokens[h].grant;
    var tokens' := tokens[h := Token(g, Used)][k := Token(g, Active)];
    assert Live(tokens', k, g) && Live(tokens, h, g);
    forall o | o in grants ensures exists m :: Live(tokens', m, o) {
      if o != g {
        var m :| Live(tokens, m, o);
        assert Live(tokens', m, o);
      }
    }
    forall o, a, b | Live(tokens', a, o) && Live(tokens', b, o) ensures a == b {
      if a != k { assert Live(tokens, a, o); }
      if b != k { assert Live(tokens, b, o); }
    }
  }

  lemma RotatedKeepsMemory(c: Config, s: State, request: RequestId, rotated: TokenHash)
    requires Memory(s) && IssuedOk(s) && Requests(s) && rotated !in s.everTokens
    requires request in s.pending && s.pending[request].Rotation? && s.pending[request].grant in s.grants
    ensures Memory(Rotated(c, s, request, rotated))
  {
    var t, p := Rotated(c, s, request, rotated), s.pending[request];
    assert PendingOk(s, request);
    RotatedKeepsOneLiveToken(s.grants, s.tokens, p.token, rotated, t.grants[p.grant]);
    assert !Spent(s.issued, FromToken(rotated));
    forall h | h in t.tokens && Spent(t.issued, FromToken(h)) ensures t.tokens[h].status.Used? { assert h in s.tokens; }
  }

  lemma RotatedKeepsRequests(c: Config, s: State, request: RequestId, rotated: TokenHash)
    requires Requests(s) && rotated !in s.everTokens
    requires request in s.pending && s.pending[request].Rotation? && s.pending[request].grant in s.grants
    ensures Requests(Rotated(c, s, request, rotated))
  {
    var t := Rotated(c, s, request, rotated);
    assert PendingOk(s, request);
    OthersWaitElsewhere(s, request);
    forall r | r in t.pending ensures PendingOk(t, r) { assert PendingOk(s, r); }
    forall h | h in t.tokens && t.tokens[h].status.Rotating?
      ensures exists r :: Holder(t.pending, r, h, t.tokens[h].grant)
    {
      var r :| Holder(s.pending, r, h, s.tokens[h].grant);
      assert Holder(t.pending, r, h, t.tokens[h].grant);
    }
  }

  lemma RotatedKeepsInv(c: Config, s: State, request: RequestId, rotated: TokenHash)
    requires Inv(c, s) && rotated !in s.everTokens
    requires request in s.pending && s.pending[request].Rotation? && s.pending[request].grant in s.grants
    ensures Inv(c, Rotated(c, s, request, rotated))
  {
    RotatedKeepsMemory(c, s, request, rotated);
    RotatedKeepsRequests(c, s, request, rotated);
    if s.disk.Some? { ImageSurvives(s, Rotated(c, s, request, rotated), s.disk.value); }
  }

  lemma SuccessKeepsInv(c: Config, s: State, request: RequestId, rotated: TokenHash, diskOk: bool)
    requires Inv(c, s) && rotated !in s.everTokens && Persisted(c, diskOk)
    requires request in s.pending && s.pending[request].Rotation? && s.pending[request].grant in s.grants
    ensures var v, p := Persist(c, Rotated(c, s, request, rotated), diskOk), s.pending[request];
            Inv(c, v.(issued := v.issued + [Issue(FromToken(p.token), p.grant, p.scopes)]))
  {
    var u, p := Rotated(c, s, request, rotated), s.pending[request];
    assert PendingOk(s, request);
    RotatedKeepsInv(c, s, request, rotated);
    PersistKeepsInv(c, u, diskOk);
    var v := Persist(c, u, diskOk);
    assert !Spent(s.issued, FromToken(p.token)) by { assert s.tokens[p.token].status.Rotating?; }
    assert v.origin == s.origin;
    AnswerKeepsInv(c, v, Issue(FromToken(p.token), p.grant, p.scopes));
  }

  lemma EndRotationKeepsInv(c: Config, s: State, request: RequestId, signed: bool, rotated: TokenHash, diskOk: bool)
    requires Inv(c, s) && request in s.pending && s.pending[request].Rotation? && rotated !in s.everTokens
    ensures Inv(c, FinishRotation(c, s, request, signed, rotated, diskOk))
  {
    var p := s.pending[request];
    assert PendingOk(s, request);
    if p.grant !in s.grants {
      LeaveKeepsInv(c, s, request);
    } else if !signed {
      ReactivatedKeepsInv(c, s, request, {});
      assert s.everTokens + {} == s.everTokens;
    } else if !Persisted(c, diskOk) {
      ReactivatedKeepsInv(c, s, request, {rotated});
    } else {
      SuccessKeepsInv(c, s, request, rotated, diskOk);
    }
  }

  // A process with no requests and no codes, whose memory is empty or an image as stored.
  lemma LoadedIsInv(c: Config, s: State, image: Image, up: bool)
    requires Inv(c, s) && ImageOk(s, image)
    ensures Inv(c, Stopped(s).(up := up, grants := image.grants, tokens := image.tokens))
  {
    var t := Stopped(s).(up := up, grants := image.grants, tokens := image.tokens);
    assert Memory(t);
    assert t.disk.Some? ==> ImageOk(s, t.disk.value);
  }

  lemma EmptyIsInv(c: Config, s: State, up: bool)
    requires Inv(c, s)
    ensures Inv(c, Stopped(s).(up := up))
  {
    var nothing := Image(map[], map[]);
    assert ImageOk(s, nothing);
    LoadedIsInv(c, s, nothing, up);
    assert Stopped(s).(up := up) == Stopped(s).(up := up, grants := nothing.grants, tokens := nothing.tokens);
  }

  lemma LoadKeepsInv(c: Config, s: State, image: Image, now: int, diskOk: bool)
    requires Inv(c, s) && ImageOk(s, image)
    ensures Inv(c, Load(c, s, image, now, diskOk))
  {
    var loaded := Stopped(s).(up := true, grants := image.grants, tokens := image.tokens);
    LoadedIsInv(c, s, image, true);
    ShrinkKeepsInv(c, loaded, SweepGrants(loaded, now));
    PersistKeepsInv(c, SweepGrants(loaded, now), true);
    EmptyIsInv(c, s, false);
    assert Stopped(s).(up := false) == Stopped(s);
  }

  lemma RestartKeepsInv(c: Config, s: State, now: int, diskOk: bool)
    requires Inv(c, s)
    ensures Inv(c, Restart(c, s, now, diskOk))
  {
    if c.durable && s.disk.Some? && Accepts(s.disk.value, c.maxRecords) {
      LoadKeepsInv(c, s, s.disk.value, now, diskOk);
    } else if c.durable && (s.disk.Some? || !diskOk) {
      EmptyIsInv(c, s, false);
      assert Stopped(s).(up := false) == Stopped(s);
    } else {
      EmptyIsInv(c, s, true);
      PersistKeepsInv(c, Stopped(s).(up := true), true);
    }
  }

  lemma StepKeepsInv(c: Config, s: State, step: Step)
    requires Inv(c, s)
    ensures Inv(c, Apply(c, s, step))
  {
    if Enabled(s, step) {
      match step
      case Authorize(code, record, now) => AuthorizeKeepsInv(c, s, code, record, now);
      case StartExchange(r, code, client, uri, resource, challenge, now, ok) =>
        StartExchangeKeepsInv(c, s, r, code, client, uri, resource, challenge, now, ok);
      case EndExchange(r, signed, token, grant, ok) => EndExchangeKeepsInv(c, s, r, signed, token, grant, ok);
      case StartRotation(r, token, client, resource, asked, now, ok, revokeOk) =>
        StartRotationKeepsInv(c, s, r, token, client, resource, asked, now, ok, revokeOk);
      case EndRotation(r, signed, rotated, ok) => EndRotationKeepsInv(c, s, r, signed, rotated, ok);
      case Sweep(now, ok) =>
        var t := s.(codes := LiveCodes(s.codes, now));
        DropCodesKeepsInv(c, s, t);
        SweepKeepsInv(c, t, now, ok);
      case NewProcess(now, ok) => RestartKeepsInv(c, s, now, ok);
    }
  }

  /** Under every interleaving of code exchanges, rotations, sweeps, failures and restarts each grant
      has exactly one token that is active or rotating, every token points at a live grant, grants
      never change but for an idle expiry within their absolute expiry, and no token stays rotating
      without a request that will finish it. */
  lemma {:induction false} EveryRunKeepsInv(c: Config, s: State, steps: seq<Step>)
    requires Inv(c, s)
    ensures Inv(c, Run(c, s, steps))
    decreases |steps|
  {
    if steps != [] {
      EveryRunKeepsInv(c, s, steps[..|steps| - 1]);
      StepKeepsInv(c, Run(c, s, steps[..|steps| - 1]), steps[|steps| - 1]);
    }
  }

  /** Each authorization code and each refresh token value gets at most one success response, over
      all interleavings and restarts, and what is issued stays within the scopes of the grant the
      code was exchanged for. */
  lemma AtMostOneSuccess(c: Config, steps: seq<Step>)
    ensures var s := Run(c, FRESH, steps);
            && (forall i, j | 0 <= i < j < |s.issued| :: s.issued[i].source != s.issued[j].source)
            && (forall i | 0 <= i < |s.issued| :: s.issued[i].grant in s.origin
                  && forall k | 0 <= k < |s.issued[i].scopes| ::
                     s.issued[i].scopes[k] in s.origin[s.issued[i].grant].scopes)
            && (forall i | 0 <= i < |s.issued| && s.issued[i].source.FromCode? ::
                  s.issued[i].scopes == s.origin[s.issued[i].grant].scopes)
  {
    EveryRunKeepsInv(c, FRESH, steps);
  }

  // ---------- reuse within one process ----------

  predicate IsRestart(step: Step) { step.NewProcess? }

  // The grant stays away, and whatever was answered was not for it.
  predicate StaysDead(s: State, t: State, g: GrantId) {
    && g in t.origin && g !in t.grants
    && (t.issued == s.issued
        || (|s.issued| < |t.issued| && t.issued == s.issued + [t.issued[|s.issued|]]
            && t.issued[|s.issued|].grant != g))
  }

  lemma ExchangeStaysDead(c: Config, s: State, step: Step, g: GrantId)
    requires g in s.origin && g !in s.grants && step.EndExchange? && Enabled(s, step)
    ensures StaysDead(s, Apply(c, s, step), g)
  {
  }

  lemma RotationStaysDead(c: Config, s: State, step: Step, g: GrantId)
    requires g in s.origin && g !in s.grants && step.EndRotation? && Enabled(s, step)
    ensures StaysDead(s, Apply(c, s, step), g)
  {
  }

  // No success response, and no grant that was not there.
  predicate AnswersNothing(s: State, t: State) {
    t.issued == s.issued && t.origin == s.origin && t.grants.Keys <= s.grants.Keys
  }

  lemma SweepAnswersNothing(c: Config, s: State, now: int, diskOk: bool)
    ensures AnswersNothing(s, SweepAndPersist(c, s, now, diskOk))
  {
  }

  lemma StartExchangeAnswersNothing(c: Config, s: State, step: Step)
    requires step.StartExchange?
    ensures AnswersNothing(s, Apply(c, s, step))
  {
    SweepAnswersNothing(c, s.(codes := s.codes - {step.code}), step.now, step.diskOk);
  }

  lemma PresentAnswersNothing(c: Config, s: State, step: Step)
    requires step.StartRotation?
    ensures AnswersNothing(s,
                           PresentToken(c, s, step.request, step.token, step.client, step.resource, step.asked,
                                        step.now, step.revokeOk))
  {
  }

  lemma StartRotationAnswersNothing(c: Config, s: State, step: Step)
    requires step.StartRotation?
    ensures AnswersNothing(s, Apply(c, s, step))
  {
    SweepAnswersNothing(c, s, step.now, step.diskOk);
    PresentAnswersNothing(c, SweepAndPersist(c, s, step.now, step.diskOk), step);
  }

  lemma OtherStepsAnswerNothing(c: Config, s: State, step: Step)
    requires !IsRestart(step) && !step.EndExchange? && !step.EndRotation?
    ensures AnswersNothing(s, Apply(c, s, step))
  {
    if step.StartExchange? {
      StartExchangeAnswersNothing(c, s, step);
    } else if step.StartRotation? {
      StartRotationAnswersNothing(c, s, step);
    } else if step.Sweep? {
      SweepAnswersNothing(c, s.(codes := LiveCodes(s.codes, step.now)), step.now, step.diskOk);
    }
  }

  lemma DeadGrantStaysDead(c: Config, s: State, step: Step, g: GrantId)
    requires g in s.origin && g !in s.grants && !IsRestart(step)
    ensures StaysDead(s, Apply(c, s, step), g)
  {
    if Enabled(s, step) {
      if step.EndExchange? {
        ExchangeStaysDead(c, s, step, g);
      } else if step.EndRotation? {
        RotationStaysDead(c, s, step, g);
      } else {
        OtherStepsAnswerNothing(c, s, step);
      }
    }
  }

  lemma {:induction false} NoSuccessForDeadGrant(c: Config, s: State, steps: seq<Step>, g: GrantId)
    requires g in s.origin && g !in s.grants
    requires forall i | 0 <= i < |steps| :: !IsRestart(steps[i])
    ensures var t := Run(c, s, steps);
            && g in t.origin && g !in t.grants && s.issued <= t.issued
            && forall i | |s.issued| <= i < |t.issued| :: t.issued[i].grant != g
    decreases |steps|
  {
    if steps != [] {
      var init := steps[..|steps| - 1];
      NoSuccessForDeadGrant(c, s, init, g);
      DeadGrantStaysDead(c, Run(c, s, init), steps[|steps| - 1], g);
    }
  }

  lemma ReuseRevokes(c: Config, s: State, request: RequestId, token: TokenHash, client: Client, resource: Option<nat>,
                     asked: Option<seq<Scope>>, now: int, diskOk: bool, revokeOk: bool)
    requires token in s.tokens && !s.tokens[token].status.Active?
    ensures var t := BeginRotation(c, s, request, token, client, resource, asked, now, diskOk, revokeOk);
            t.issued == s.issued && t.origin == s.origin && s.tokens[token].grant !in t.grants
  {
  }

  /** Presenting a token that is being rotated or was used removes its whole family, and within the
      process no request on that family, in flight or later, succeeds any more. */
  lemma ReuseEndsFamily(c: Config, s: State, request: RequestId, token: TokenHash, client: Client,
                        resource: Option<nat>,
                        asked: Option<seq<Scope>>, now: int, diskOk: bool, revokeOk: bool, steps: seq<Step>)
    requires Inv(c, s) && s.up && request !in s.pending
    requires token in s.tokens && !s.tokens[token].status.Active?
    requires forall i | 0 <= i < |steps| :: !IsRestart(steps[i])
    ensures var g, t := s.tokens[token].grant,
            Apply(c, s, StartRotation(request, token, client, resource, asked, now, diskOk, revokeOk));
            var u := Run(c, t, steps);
            && t.issued == s.issued && g !in u.grants
            && (forall h | h in u.tokens :: u.tokens[h].grant != g)
            && forall i | |s.issued| <= i < |u.issued| :: u.issued[i].grant != g
  {
    var step := StartRotation(request, token, client, resource, asked, now, diskOk, revokeOk);
    var g, t := s.tokens[token].grant, Apply(c, s, step);
    assert g in s.origin;
    ReuseRevokes(c, s, request, token, client, resource, asked, now, diskOk, revokeOk);
    NoSuccessForDeadGrant(c, t, steps, g);
    TokensFollowGrants(c, s, step, steps);
  }

  lemma TokensFollowGrants(c: Config, s: State, step: Step, steps: seq<Step>)
    requires Inv(c, s)
    ensures var u := Run(c, Apply(c, s, step), steps); forall h | h in u.tokens :: u.tokens[h].grant in u.grants
  {
    StepKeepsInv(c, s, step);
    EveryRunKeepsInv(c, Apply(c, s, step), steps);
  }

  // ---------- what a code exchange binds ----------

  /** A grant answered for is bound to the code that was presented: to its client, which matched the
      request together with the redirect URI and the PKCE challenge, and to its resource, scopes and
      subject, whatever happened while the access token was signed. */
  lemma IssuedGrantIsBound(c: Config, s: State, request: RequestId, code: CodeId, client: Client, redirectUri: nat,
                           resource: Option<nat>, challenge: nat, now: int, diskOk: bool,
                           u: State, token: TokenHash, grant: GrantId, wrote: bool)
    requires request !in s.pending
    requires request in BeginExchange(c, s, request, code, client, redirectUri, resource, challenge, now,
                                      diskOk).pending
    requires request in u.pending
    requires u.pending[request]
             == BeginExchange(c, s, request, code, client, redirectUri, resource, challenge, now,
                              diskOk).pending[request]
    requires |FinishExchange(c, u, request, true, token, grant, wrote).issued| > |u.issued|
    ensures code in s.codes && s.codes[code].expiresAt > now
            && Matches(s.codes[code], client, redirectUri, resource, challenge)
    ensures var v, record := FinishExchange(c, u, request, true, token, grant, wrote), s.codes[code];
            && grant in v.grants && v.tokens[token] == Token(grant, Active)
            && v.grants[grant].client == client && v.grants[grant].resource == record.resource
            && v.grants[grant].scopes == record.scopes && v.grants[grant].subject == record.subject
            && v.issued[|u.issued|] == Issue(FromCode(code), grant, record.scopes)
  {
  }
}
