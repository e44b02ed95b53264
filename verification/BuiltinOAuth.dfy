/** The authorization server's maps as the source keeps them: changed in place, one entry at a time,
    with loops over entries and undo on failure. Every method is tied to the transition of
    RefreshState it implements. */
module BuiltinOAuth {
  import opened Common
  import opened RefreshState

  // ---------- the store file ----------

  datatype GrantEntry = GrantEntry(id: GrantId, grant: Grant)
  datatype TokenEntry = TokenEntry(hash: TokenHash, token: Token)
  datatype Document = Document(refreshGrants: seq<GrantEntry>, refreshTokens: seq<TokenEntry>)

  predicate DistinctIds(entries: seq<GrantEntry>) {
    forall i, j | 0 <= i < j < |entries| :: entries[i].id != entries[j].id
  }

  predicate DistinctHashes(entries: seq<TokenEntry>) {
    forall i, j | 0 <= i < j < |entries| :: entries[i].hash != entries[j].hash
  }

  predicate Distinct(d: Document) { DistinctIds(d.refreshGrants) && DistinctHashes(d.refreshTokens) }

  function GrantsIn(entries: seq<GrantEntry>): (m: map<GrantId, Grant>)
    ensures forall g :: g in m <==> exists i :: 0 <= i < |entries| && entries[i].id == g
  {
    if entries == [] then map[]
    else
      var n := |entries| - 1;
      assert forall i | 0 <= i < n :: entries[..n][i] == entries[i];
      GrantsIn(entries[..n])[entries[n].id := entries[n].grant]
  }

  function TokensIn(entries: seq<TokenEntry>): (m: map<TokenHash, Token>)
    ensures forall h :: h in m <==> exists i :: 0 <= i < |entries| && entries[i].hash == h
  {
    if entries == [] then map[]
    else
      var n := |entries| - 1;
      assert forall i | 0 <= i < n :: entries[..n][i] == entries[i];
      TokensIn(entries[..n])[entries[n].hash := entries[n].token]
  }

  function ImageIn(d: Document): Image { Image(GrantsIn(d.refreshGrants), TokensIn(d.refreshTokens)) }

  lemma {:induction false} GrantsInAt(entries: seq<GrantEntry>, i: nat)
    requires DistinctIds(entries) && i < |entries|
    ensures entries[i].id in GrantsIn(entries) && GrantsIn(entries)[entries[i].id] == entries[i].grant
  {
    var n := |entries| - 1;
    if i < n { GrantsInAt(entries[..n], i); }
  }

  lemma {:induction false} TokensInAt(entries: seq<TokenEntry>, i: nat)
    requires DistinctHashes(entries) && i < |entries|
    ensures entries[i].hash in TokensIn(entries) && TokensIn(entries)[entries[i].hash] == entries[i].token
  {
    var n := |entries| - 1;
    if i < n { TokensInAt(entries[..n], i); }
  }

  lemma {:induction false} TokensInSize(entries: seq<TokenEntry>)
    requires DistinctHashes(entries)
    ensures |TokensIn(entries)| == |entries|
  {
    if entries != [] {
      var n := |entries| - 1;
      TokensInSize(entries[..n]);
      assert entries[n].hash !in TokensIn(entries[..n]);
      assert TokensIn(entries).Keys == TokensIn(entries[..n]).Keys + {entries[n].hash};
    }
  }

  // ---------- counting active tokens ----------

  function ActiveCount(entries: seq<TokenEntry>, g: GrantId): nat {
    if entries == [] then 0
    else
      var n := |entries| - 1;
      ActiveCount(entries[..n], g) + if entries[n].token == Token(g, Active) then 1 else 0
  }

  function ActiveTokens(tokens: map<TokenHash, Token>, g: GrantId): set<TokenHash> {
    set h | h in tokens && tokens[h] == Token(g, Active)
  }

  lemma {:induction false} ActiveCountIsSize(entries: seq<TokenEntry>, g: GrantId)
    requires DistinctHashes(entries)
    ensures ActiveCount(entries, g) == |ActiveTokens(TokensIn(entries), g)|
  {
    if entries == [] {
      assert ActiveTokens(TokensIn(entries), g) == {};
    } else {
      var n := |entries| - 1;
      ActiveCountIsSize(entries[..n], g);
      var before, after := ActiveTokens(TokensIn(entries[..n]), g), ActiveTokens(TokensIn(entries), g);
      assert entries[n].hash !in TokensIn(entries[..n]);
      if entries[n].token == Token(g, Active) {
        assert after == before + {entries[n].hash};
      } else {
        assert after == before;
      }
    }
  }

  lemma SoleActiveIsSize(image: Image, g: GrantId)
    ensures |ActiveTokens(image.tokens, g)| == 1 <==> HasOneActive(image, g)
  {
    var actives := ActiveTokens(image.tokens, g);
    if |actives| == 1 {
      var h :| h in actives;
      var rest := actives - {h};
      assert |rest| == 0;
      forall k | k in image.tokens && image.tokens[k] == Token(g, Active) ensures k == h {
        assert k in actives;
        assert k !in rest;
      }
      assert SoleActive(image, g, h);
    }
    if HasOneActive(image, g) {
      var h: TokenHash :| SoleActive(image, g, h);
      assert actives == {h};
    }
  }

  // A grant has exactly one active token when the count of its active entries is one.
  lemma OneActiveIffCounted(entries: seq<TokenEntry>, grants: map<GrantId, Grant>, g: GrantId)
    requires DistinctHashes(entries)
    ensures ActiveCount(entries, g) == 1 <==> HasOneActive(Image(grants, TokensIn(entries)), g)
  {
    ActiveCountIsSize(entries, g);
    SoleActiveIsSize(Image(grants, TokensIn(entries)), g);
  }

  function CountOf(counts: map<GrantId, nat>, g: GrantId): nat { if g in counts then counts[g] else 0 }

  predicate GrantFits(grant: Grant) { 0 <= grant.createdAt <= grant.idleExpiresAt <= grant.expiresAt }

  predicate TokenFits(token: Token, ids: set<GrantId>) { token.grant in ids && !token.status.Rotating? }

  // The fast check with sets and counters decides the declarative acceptance.
  method ValidatePersistedRefreshState(d: Document, maxRecords: nat) returns (ok: bool)
    ensures ok <==> Distinct(d) && Accepts(ImageIn(d), maxRecords)
  {
    if |d.refreshTokens| > maxRecords {
      if Distinct(d) { TokensInSize(d.refreshTokens); }
      return false;
    }
    var grantIds := CollectGrants(d.refreshGrants);
    if grantIds.None? {
      if Distinct(d) {
        var i :| 0 <= i < |d.refreshGrants| && !GrantFits(d.refreshGrants[i].grant);
        GrantsInAt(d.refreshGrants, i);
      }
      return false;
    }
    var counts := CountActives(d.refreshTokens, grantIds.value);
    if counts.None? {
      if Distinct(d) {
        var i :| 0 <= i < |d.refreshTokens| && !TokenFits(d.refreshTokens[i].token, grantIds.value);
        TokensInAt(d.refreshTokens, i);
      }
      return false;
    }
    ok := EachCountedOnce(grantIds.value, counts.value);
    TokensInSize(d.refreshTokens);
    AcceptedIffCounted(d, maxRecords);
  }

  lemma AcceptedIffCounted(d: Document, maxRecords: nat)
    requires Distinct(d) && |TokensIn(d.refreshTokens)| <= maxRecords
    requires forall i | 0 <= i < |d.refreshGrants| :: GrantFits(d.refreshGrants[i].grant)
    requires forall i | 0 <= i < |d.refreshTokens| ::
             TokenFits(d.refreshTokens[i].token, GrantsIn(d.refreshGrants).Keys)
    ensures Accepts(ImageIn(d), maxRecords) <==>
      forall g | g in GrantsIn(d.refreshGrants) :: ActiveCount(d.refreshTokens, g) == 1
  {
    GrantsAreTimely(d.refreshGrants);
    TokensAreFit(d);
    CountedIsOneActive(d);
  }

  lemma GrantsAreTimely(entries: seq<GrantEntry>)
    requires DistinctIds(entries) && forall i | 0 <= i < |entries| :: GrantFits(entries[i].grant)
    ensures TimesWithin(GrantsIn(entries))
  {
    forall g | g in GrantsIn(entries) ensures GrantFits(GrantsIn(entries)[g]) {
      var i :| 0 <= i < |entries| && entries[i].id == g;
      GrantsInAt(entries, i);
    }
  }

  lemma TokensAreFit(d: Document)
    requires DistinctHashes(d.refreshTokens)
    requires forall i | 0 <= i < |d.refreshTokens| ::
             TokenFits(d.refreshTokens[i].token, GrantsIn(d.refreshGrants).Keys)
    ensures TokensFit(ImageIn(d))
  {
    var tokens := TokensIn(d.refreshTokens);
    forall h | h in tokens ensures TokenFits(tokens[h], GrantsIn(d.refreshGrants).Keys) {
      var i :| 0 <= i < |d.refreshTokens| && d.refreshTokens[i].hash == h;
      TokensInAt(d.refreshTokens, i);
    }
  }

  lemma CountedIsOneActive(d: Document)
    requires DistinctHashes(d.refreshTokens)
    ensures EachHasOneActive(ImageIn(d)) <==>
      forall g | g in GrantsIn(d.refreshGrants) :: ActiveCount(d.refreshTokens, g) == 1
  {
    var image := ImageIn(d);
    forall g | g in image.grants
      ensures ActiveCount(d.refreshTokens, g) == 1 <==> HasOneActive(image, g)
    {
      OneActiveIffCounted(d.refreshTokens, image.grants, g);
    }
    if EachHasOneActive(image) {
      forall g | g in GrantsIn(d.refreshGrants) ensures ActiveCount(d.refreshTokens, g) == 1 {
        assert HasOneActive(image, g);
      }
    } else {
      var g :| g in image.grants && !HasOneActive(image, g);
      assert ActiveCount(d.refreshTokens, g) != 1;
    }
  }

  method CollectGrants(entries: seq<GrantEntry>) returns (ids: Option<set<GrantId>>)
    ensures ids.Some? <==> DistinctIds(entries) && forall i | 0 <= i < |entries| :: GrantFits(entries[i].grant)
    ensures ids.Some? ==> ids.value == GrantsIn(entries).Keys
  {
    var seen: set<GrantId> := {};
    for n := 0 to |entries|
      invariant DistinctIds(entries[..n]) && forall i | 0 <= i < n :: GrantFits(entries[i].grant)
      invariant forall g :: g in seen <==> exists i :: 0 <= i < n && entries[i].id == g
    {
      if !GrantFits(entries[n].grant) || entries[n].id in seen { return None; }
      seen := seen + {entries[n].id};
    }
    assert entries[..|entries|] == entries;
    assert seen == GrantsIn(entries).Keys;
    ids := Some(seen);
  }

  method CountActives(entries: seq<TokenEntry>, grantIds: set<GrantId>) returns (counts: Option<map<GrantId, nat>>)
    ensures counts.Some? <==>
              DistinctHashes(entries) && forall i | 0 <= i < |entries| :: TokenFits(entries[i].token, grantIds)
    ensures counts.Some? ==> forall g :: CountOf(counts.value, g) == ActiveCount(entries, g)
  {
    var hashes: set<TokenHash>, active: map<GrantId, nat> := {}, map[];
    for n := 0 to |entries|
      invariant DistinctHashes(entries[..n]) && forall i | 0 <= i < n :: TokenFits(entries[i].token, grantIds)
      invariant forall h :: h in hashes <==> exists i :: 0 <= i < n && entries[i].hash == h
      invariant forall g :: CountOf(active, g) == ActiveCount(entries[..n], g)
    {
      var entry := entries[n];
      if !TokenFits(entry.token, grantIds) || entry.hash in hashes { return None; }
      hashes := hashes + {entry.hash};
      assert entries[..n + 1][..n] == entries[..n];
      if entry.token.status.Active? {
        active := active[entry.token.grant := CountOf(active, entry.token.grant) + 1];
      }
    }
    assert entries[..|entries|] == entries;
    counts := Some(active);
  }

  method EachCountedOnce(ids: set<GrantId>, counts: map<GrantId, nat>) returns (all: bool)
    ensures all <==> forall g | g in ids :: CountOf(counts, g) == 1
  {
    var todo := ids;
    while todo != {}
      invariant todo <= ids && forall g | g in ids - todo :: CountOf(counts, g) == 1
      decreases |todo|
    {
      var g :| g in todo;
      if CountOf(counts, g) != 1 { return false; }
      todo := todo - {g};
    }
    all := true;
  }

  // ---------- writing the store file ----------

  function Narrow<T>(m: map<nat, T>, keys: set<nat>): map<nat, T> {
    map k | k in m && k in keys :: m[k]
  }

  lemma NarrowGrows<T>(m: map<nat, T>, done: set<nat>, more: set<nat>, k: nat)
    requires k in m && more == done + {k}
    ensures Narrow(m, more) == Narrow(m, done)[k := m[k]]
  {
  }

  lemma {:induction false} GrantsInExtends(entries: seq<GrantEntry>, e: GrantEntry)
    requires DistinctIds(entries) && e.id !in GrantsIn(entries)
    ensures DistinctIds(entries + [e]) && GrantsIn(entries + [e]) == GrantsIn(entries)[e.id := e.grant]
  {
    assert (entries + [e])[..|entries|] == entries;
  }

  lemma {:induction false} TokensInExtends(entries: seq<TokenEntry>, e: TokenEntry)
    requires DistinctHashes(entries) && e.hash !in TokensIn(entries)
    ensures DistinctHashes(entries + [e]) && TokensIn(entries + [e]) == TokensIn(entries)[e.hash := e.token]
  {
    assert (entries + [e])[..|entries|] == entries;
  }

  method ListGrants(grants: map<GrantId, Grant>) returns (entries: seq<GrantEntry>)
    ensures DistinctIds(entries) && GrantsIn(entries) == grants
  {
    entries := [];
    var todo := grants.Keys;
    while todo != {}
      invariant todo <= grants.Keys && DistinctIds(entries)
      invariant GrantsIn(entries) == Narrow(grants, grants.Keys - todo)
      decreases |todo|
    {
      var g :| g in todo;
      GrantsInExtends(entries, GrantEntry(g, grants[g]));
      entries := entries + [GrantEntry(g, grants[g])];
      todo := todo - {g};
    }
  }

  // The entries are the settled tokens outside `todo`.
  predicate Listed(tokens: map<TokenHash, Token>, entries: seq<TokenEntry>, todo: set<TokenHash>) {
    DistinctHashes(entries) && TokensIn(entries) == Narrow(Settled(tokens), tokens.Keys - todo)
  }

  lemma ListOneMore(tokens: map<TokenHash, Token>, entries: seq<TokenEntry>, todo: set<TokenHash>, h: TokenHash)
    requires h in todo && todo <= tokens.Keys && Listed(tokens, entries, todo)
    ensures Listed(tokens, entries + [TokenEntry(h, Settled(tokens)[h])], todo - {h})
  {
    assert h !in Narrow(Settled(tokens), tokens.Keys - todo);
    TokensInExtends(entries, TokenEntry(h, Settled(tokens)[h]));
    assert tokens.Keys - (todo - {h}) == (tokens.Keys - todo) + {h};
    NarrowGrows(Settled(tokens), tokens.Keys - todo, tokens.Keys - (todo - {h}), h);
  }

  lemma ListedAll(tokens: map<TokenHash, Token>, entries: seq<TokenEntry>)
    requires Listed(tokens, entries, {})
    ensures TokensIn(entries) == Settled(tokens)
  {
    assert Narrow(Settled(tokens), tokens.Keys - {}) == Settled(tokens);
  }

  // A token in rotation is written as active.
  method ListTokens(tokens: map<TokenHash, Token>) returns (entries: seq<TokenEntry>)
    ensures DistinctHashes(entries) && TokensIn(entries) == Settled(tokens)
  {
    entries := [];
    var todo := tokens.Keys;
    assert Listed(tokens, entries, todo);
    while todo != {}
      invariant todo <= tokens.Keys && Listed(tokens, entries, todo)
      decreases |todo|
    {
      var h :| h in todo;
      var token := if tokens[h].status.Rotating? then tokens[h].(status := Active) else tokens[h];
      ListOneMore(tokens, entries, todo, h);
      entries := entries + [TokenEntry(h, token)];
      todo := todo - {h};
    }
    ListedAll(tokens, entries);
  }

  function DiskIn(file: Option<Document>): Option<Image> {
    if file.None? then None else Some(ImageIn(file.value))
  }

  lemma KeepTokensTwice(tokens: map<TokenHash, Token>, grants: map<GrantId, Grant>, fewer: map<GrantId, Grant>)
    requires fewer.Keys <= grants.Keys
    ensures KeepTokens(KeepTokens(tokens, grants), fewer) == KeepTokens(tokens, fewer)
  {
  }

  function AfterRotation(s: State, c: Config, token: TokenHash, grant: GrantId, rotated: TokenHash, now: int): State
    requires grant in s.grants
  {
    s.(tokens := s.tokens[token := Token(grant, Used)][rotated := Token(grant, Active)],
       grants := s.grants[grant := s.grants[grant].(idleExpiresAt := Min(now + c.idleTtl, s.grants[grant].expiresAt))],
       everTokens := s.everTokens + {rotated})
  }

  // The stretch after signing, by its four ways to end.
  lemma RotationEnds(c: Config, s: State, request: RequestId, signed: bool, rotated: TokenHash, diskOk: bool)
    requires request in s.pending && s.pending[request].Rotation?
    ensures var p, t := s.pending[request], s.(pending := s.pending - {request});
            var held := p.grant in s.grants && p.token in s.tokens && s.tokens[p.token] == Token(p.grant, Rotating);
            RefreshState.FinishRotation(c, s, request, signed, rotated, diskOk) ==
              if !held then t
              else if !signed then t.(tokens := t.tokens[p.token := Token(p.grant, Active)])
              else if !Persisted(c, diskOk) then BeforeRotation(t, p.token, p.grant, rotated)
              else Persist(c, AfterRotation(t, c, p.token, p.grant, rotated, p.now), diskOk)
                   .(issued := s.issued + [Issue(FromToken(p.token), p.grant, p.scopes)])
  {
  }

  function BeforeRotation(s: State, token: TokenHash, grant: GrantId, rotated: TokenHash): State {
    s.(tokens := s.tokens[token := Token(grant, Active)], everTokens := s.everTokens + {rotated})
  }

  // The grants left are unchanged, those gone had expired, and those looked at and left had not.
  predicate SweptSoFar(before: map<GrantId, Grant>, grants: map<GrantId, Grant>, todo: set<GrantId>, now: int) {
    && (forall g | g in grants :: g in before && grants[g] == before[g] && (g in todo || !Expired(grants[g], now)))
    && (forall g | g in before && g !in grants :: Expired(before[g], now))
  }

  class BuiltinOAuth {
    const config: Config
    var authorizationCodes: map<CodeId, Code>
    var refreshGrants: map<GrantId, Grant>
    var refreshTokens: map<TokenHash, Token>
    // Requests suspended at the signing of their access token, with what they hold meanwhile.
    var suspended: map<RequestId, Pending>
    var storeFile: Option<Document>
    var running: bool
    ghost var issued: seq<Issue>
    ghost var origin: map<GrantId, Grant>
    ghost var everTokens: set<TokenHash>
    ghost var everCodes: set<CodeId>

    ghost function Model(): State
      reads this
    {
      State(running, authorizationCodes, refreshGrants, refreshTokens, suspended, DiskIn(storeFile),
            issued, origin, everTokens, everCodes)
    }

    // Tokens belong to known grants, and generated values are remembered.
    ghost predicate Valid()
      reads this
    {
      && (forall h | h in refreshTokens :: refreshTokens[h].grant in refreshGrants && h in everTokens)
      && (forall g | g in refreshGrants :: g in origin)
    }

    constructor (config: Config)
      ensures Valid() && this.config == config
      ensures Model() == State(true, map[], map[], map[], map[], None, [], map[], {}, {})
    {
      this.config := config;
      running, authorizationCodes, refreshGrants, refreshTokens := true, map[], map[], map[];
      suspended, storeFile, issued, origin, everTokens, everCodes := map[], None, [], map[], {}, {};
    }

    method SweepAuthorizationCodes(now: int)
      modifies `authorizationCodes
      ensures authorizationCodes == LiveCodes(old(authorizationCodes), now)
    {
      var todo := authorizationCodes.Keys;
      while todo != {}
        invariant todo <= authorizationCodes.Keys <= old(authorizationCodes).Keys
        invariant forall k | k in authorizationCodes :: authorizationCodes[k] == old(authorizationCodes)[k]
        invariant forall k | k in authorizationCodes :: k in todo || authorizationCodes[k].expiresAt > now
        invariant forall k | k in old(authorizationCodes)
                  && k !in authorizationCodes :: old(authorizationCodes)[k].expiresAt <= now
        decreases |todo|
      {
        var k :| k in todo;
        if authorizationCodes[k].expiresAt <= now { authorizationCodes := authorizationCodes - {k}; }
        todo := todo - {k};
      }
    }

    method RevokeRefreshGrant(g: GrantId)
      requires Valid()
      modifies `refreshGrants, `refreshTokens
      ensures Valid() && Model() == RevokeGrant(old(Model()), g)
      ensures refreshGrants == old(refreshGrants) - {g}
      ensures refreshTokens == KeepTokens(old(refreshTokens), refreshGrants)
    {
      refreshGrants := refreshGrants - {g};
      var todo := refreshTokens.Keys;
      while todo != {}
        invariant refreshGrants == old(refreshGrants) - {g}
        invariant todo <= refreshTokens.Keys <= old(refreshTokens).Keys
        invariant forall h | h in refreshTokens :: refreshTokens[h] == old(refreshTokens)[h]
        invariant forall h | h in refreshTokens :: h in todo || refreshTokens[h].grant != g
        invariant forall h | h in old(refreshTokens) && h !in refreshTokens :: old(refreshTokens)[h].grant == g
        decreases |todo|
      {
        var h :| h in todo;
        if refreshTokens[h].grant == g { refreshTokens := refreshTokens - {h}; }
        todo := todo - {h};
      }
      assert refreshTokens == KeepTokens(old(refreshTokens), refreshGrants);
    }

    method SweepRefreshGrant(g: GrantId, now: int) returns (revoked: bool)
      requires Valid() && g in refreshGrants
      modifies `refreshGrants, `refreshTokens
      ensures Valid() && revoked == Expired(old(refreshGrants)[g], now)
      ensures refreshGrants == if revoked then old(refreshGrants) - {g} else old(refreshGrants)
      ensures refreshTokens == if revoked then KeepTokens(old(refreshTokens), refreshGrants) else old(refreshTokens)
    {
      revoked := refreshGrants[g].idleExpiresAt <= now || refreshGrants[g].expiresAt <= now;
      if revoked { RevokeRefreshGrant(g); }
    }

    method SweepRefreshGrants(now: int) returns (changed: bool)
      requires Valid()
      modifies `refreshGrants, `refreshTokens
      ensures Valid() && Model() == SweepGrants(old(Model()), now)
      ensures changed <==> refreshGrants != old(refreshGrants)
    {
      changed := false;
      var todo := refreshGrants.Keys;
      while todo != {}
        invariant Valid() && todo <= refreshGrants.Keys
        invariant SweptSoFar(old(refreshGrants), refreshGrants, todo, now)
        invariant refreshTokens == KeepTokens(old(refreshTokens), refreshGrants)
        invariant changed <==> refreshGrants.Keys != old(refreshGrants).Keys
        decreases |todo|
      {
        var g :| g in todo;
        todo := todo - {g};
        KeepTokensTwice(old(refreshTokens), refreshGrants, refreshGrants - {g});
        var revoked := SweepRefreshGrant(g, now);
        changed := changed || revoked;
      }
      assert refreshGrants == LiveGrants(old(refreshGrants), now);
    }

    method PersistRefreshState(diskOk: bool) returns (ok: bool)
      modifies `storeFile
      ensures Model() == Persist(config, old(Model()), diskOk) && ok == Persisted(config, diskOk)
      ensures config.durable && diskOk ==> storeFile.Some? && Distinct(storeFile.value)
      ensures !(config.durable && diskOk) ==> storeFile == old(storeFile)
    {
      if !config.durable { return true; }
      if !diskOk { return false; }
      var grants := ListGrants(refreshGrants);
      var tokens := ListTokens(refreshTokens);
      storeFile := Some(Document(grants, tokens));
      ok := true;
    }

    method SweepThenPersist(now: int, diskOk: bool)
      requires Valid()
      modifies `refreshGrants, `refreshTokens, `storeFile
      ensures Valid() && Model() == SweepAndPersist(config, old(Model()), now, diskOk)
    {
      var changed := SweepRefreshGrants(now);
      if changed { var _ := PersistRefreshState(diskOk); }
    }

    method Sweep(now: int, diskOk: bool)
      requires Valid()
      modifies this
      ensures Valid() && Model() == SweepAll(config, old(Model()), now, diskOk)
    {
      SweepAuthorizationCodes(now);
      SweepThenPersist(now, diskOk);
    }

    method Authorize(code: CodeId, record: Code, now: int) returns (accepted: bool)
      requires Valid()
      modifies this
      ensures Valid() && Model() == AuthorizeCode(config, old(Model()), code, record, now)
      ensures accepted <==> |LiveCodes(old(authorizationCodes), now)| < config.maxCodes
    {
      SweepAuthorizationCodes(now);
      if |authorizationCodes| >= config.maxCodes { return false; }
      authorizationCodes := authorizationCodes[code := record];
      everCodes := everCodes + {code};
      accepted := true;
    }

    // A code exchange up to the signing of the access token.
    method ExchangeAuthorizationCode(request: RequestId, code: CodeId, client: Client, redirectUri: nat,
                                     resource: Option<nat>, challenge: nat, now: int, diskOk: bool)
                                       returns (waiting: bool)
      requires Valid() && request !in suspended
      modifies this
      ensures Valid()
      ensures Model() == BeginExchange(config, old(Model()), request, code, client, redirectUri, resource, challenge,
                                       now, diskOk)
      ensures waiting <==> request in suspended
    {
      if code !in authorizationCodes || authorizationCodes[code].expiresAt <= now {
        authorizationCodes := authorizationCodes - {code};
        return false;
      }
      var record := authorizationCodes[code];
      authorizationCodes := authorizationCodes - {code};
      if client != record.client || redirectUri != record.redirectUri { return false; }
      if resource.Some? && resource.value != record.resource { return false; }
      if challenge != record.challenge { return false; }
      waiting := WaitForExchange(request, code, record, now, diskOk);
    }

    method WaitForExchange(request: RequestId, code: CodeId, record: Code, now: int, diskOk: bool)
      returns (waiting: bool)
      requires Valid() && request !in suspended
      modifies `refreshGrants, `refreshTokens, `storeFile, `suspended
      ensures Valid() && Model() == AdmitExchange(config, old(Model()), request, code, record, now, diskOk)
      ensures waiting <==> request in suspended
    {
      SweepThenPersist(now, diskOk);
      if |refreshTokens| >= config.maxRecords { return false; }
      suspended := suspended[request := Exchange(code, record, now)];
      waiting := true;
    }

    method IssueRefreshGrant(record: Code, now: int, token: TokenHash, grant: GrantId)
      requires Valid() && token !in everTokens && grant !in origin
      modifies `refreshGrants, `refreshTokens, `origin, `everTokens
      ensures Valid() && Model() == IssueGrant(config, old(Model()), record, now, token, grant)
    {
      var expiresAt := now + config.maxTtl;
      var created := Grant(record.client, record.resource, record.scopes, record.subject, now,
                           Min(now + config.idleTtl, expiresAt), expiresAt);
      refreshGrants := refreshGrants[grant := created];
      refreshTokens := refreshTokens[token := Token(grant, Active)];
      origin, everTokens := origin[grant := created], everTokens + {token};
    }

    // The rest of the exchange, once the access token is signed or signing failed.
    method FinishExchange(request: RequestId, signed: bool, token: TokenHash, grant: GrantId, diskOk: bool)
      returns (answer: Option<Issue>)
      requires Valid() && request in suspended && suspended[request].Exchange?
      requires token !in everTokens && grant !in origin
      modifies this
      ensures Valid()
      ensures Model() == RefreshState.FinishExchange(config, old(Model()), request, signed, token, grant, diskOk)
      ensures issued == if answer.Some? then old(issued) + [answer.value] else old(issued)
    {
      var p := suspended[request];
      suspended := suspended - {request};
      if !signed { return None; }
      IssueRefreshGrant(p.record, p.now, token, grant);
      var ok := PersistRefreshState(diskOk);
      if !ok {
        RevokeRefreshGrant(grant);
        return None;
      }
      answer := Some(Issue(FromCode(p.code), grant, p.record.scopes));
      issued := issued + [answer.value];
    }

    // A rotation up to the signing of the access token.
    method ExchangeRefreshToken(request: RequestId, token: TokenHash, client: Client, resource: Option<nat>,
                                asked: Option<seq<Scope>>, now: int, diskOk: bool, revokeOk: bool)
                                  returns (waiting: bool)
      requires Valid() && request !in suspended
      modifies this
      ensures Valid()
      ensures Model() == BeginRotation(config, old(Model()), request, token, client, resource, asked, now, diskOk,
                                       revokeOk)
      ensures waiting <==> request in suspended
    {
      SweepThenPersist(now, diskOk);
      waiting := Present(request, token, client, resource, asked, now, revokeOk);
    }

    method Present(request: RequestId, token: TokenHash, client: Client, resource: Option<nat>,
                   asked: Option<seq<Scope>>, now: int, revokeOk: bool) returns (waiting: bool)
      requires Valid() && request !in suspended
      modifies `refreshGrants, `refreshTokens, `storeFile, `suspended
      ensures Valid()
      ensures Model() == PresentToken(config, old(Model()), request, token, client, resource, asked, now, revokeOk)
      ensures waiting <==> request in suspended
    {
      if token !in refreshTokens || refreshTokens[token].grant !in refreshGrants { return false; }
      var grantId := refreshTokens[token].grant;
      var grant := refreshGrants[grantId];
      if refreshTokens[token].status != Active {
        RevokeRefreshGrant(grantId);
        var _ := PersistRefreshState(revokeOk);
        return false;
      }
      if client != grant.client { return false; }
      if resource.Some? && resource.value != grant.resource { return false; }
      var scopes := if asked.None? then grant.scopes else asked.value;
      var outside := AnyOutside(scopes, grant.scopes);
      if outside { return false; }
      if |refreshTokens| >= config.maxRecords { return false; }
      refreshTokens := refreshTokens[token := Token(grantId, Rotating)];
      suspended := suspended[request := Rotation(token, grantId, scopes, now)];
      waiting := true;
    }

    // The rest of the rotation; on a failed write every change is taken back.
    method FinishRotation(request: RequestId, signed: bool, rotated: TokenHash, diskOk: bool)
      returns (answer: Option<Issue>)
      requires Valid() && request in suspended && suspended[request].Rotation? && rotated !in everTokens
      modifies this
      ensures Valid()
      ensures Model() == RefreshState.FinishRotation(config, old(Model()), request, signed, rotated, diskOk)
      ensures issued == if answer.Some? then old(issued) + [answer.value] else old(issued)
    {
      RotationEnds(config, Model(), request, signed, rotated, diskOk);
      var p := suspended[request];
      suspended := suspended - {request};
      var held := p.grant in refreshGrants && p.token in refreshTokens
        && refreshTokens[p.token] == Token(p.grant, Rotating);
      if !signed {
        if held { refreshTokens := refreshTokens[p.token := Token(p.grant, Active)]; }
        return None;
      }
      if !held { return None; }
      answer := RotateAndAnswer(p, rotated, diskOk);
    }

    method RotateAndAnswer(p: Pending, rotated: TokenHash, diskOk: bool) returns (answer: Option<Issue>)
      requires Valid() && rotated !in everTokens && p.Rotation? && p.token in refreshTokens && p.grant in refreshGrants
      requires refreshTokens[p.token] == Token(p.grant, Rotating)
      modifies `refreshGrants, `refreshTokens, `storeFile, `everTokens, `issued
      ensures Valid() && answer.Some? == Persisted(config, diskOk)
      ensures answer.Some? ==>
                && answer.value == Issue(FromToken(p.token), p.grant, p.scopes)
                && Model() == Persist(config, AfterRotation(old(Model()), config, p.token, p.grant, rotated, p.now),
                                      diskOk)
                              .(issued := old(issued) + [answer.value])
      ensures answer.None? ==> Model() == BeforeRotation(old(Model()), p.token, p.grant, rotated)
    {
      var ok := Rotate(p.token, p.grant, rotated, p.now, diskOk);
      if !ok { return None; }
      answer := Some(Issue(FromToken(p.token), p.grant, p.scopes));
      issued := issued + [answer.value];
    }

    // Retires the token for a new one and writes the file; on a failed write takes it all back.
    method Rotate(token: TokenHash, grant: GrantId, rotated: TokenHash, now: int, diskOk: bool) returns (ok: bool)
      requires Valid() && rotated !in everTokens && token in refreshTokens && grant in refreshGrants
      requires refreshTokens[token] == Token(grant, Rotating)
      modifies `refreshGrants, `refreshTokens, `storeFile, `everTokens
      ensures Valid() && ok == Persisted(config, diskOk) && everTokens == old(everTokens) + {rotated}
      ensures ok ==> Model() == Persist(config, AfterRotation(old(Model()), config, token, grant, rotated, now), diskOk)
      ensures !ok ==> Model() == BeforeRotation(old(Model()), token, grant, rotated)
    {
      var previousIdleExpiresAt := Retire(token, grant, rotated, now);
      ok := PersistRefreshState(diskOk);
      if !ok {
        TakeBack(token, grant, rotated, previousIdleExpiresAt);
        assert refreshTokens == old(refreshTokens)[token := Token(grant, Active)];
        assert refreshGrants == old(refreshGrants);
      }
    }

    method Retire(token: TokenHash, grant: GrantId, rotated: TokenHash, now: int) returns (previousIdleExpiresAt: int)
      requires Valid() && rotated !in everTokens && token in refreshTokens && grant in refreshGrants
      modifies `refreshGrants, `refreshTokens, `everTokens
      ensures Valid() && everTokens == old(everTokens) + {rotated}
      ensures Model() == AfterRotation(old(Model()), config, token, grant, rotated, now)
      ensures refreshTokens == old(refreshTokens)[token := Token(grant, Used)][rotated := Token(grant, Active)]
      ensures refreshGrants == old(refreshGrants)[grant := old(refreshGrants)[grant].(
                idleExpiresAt := Min(now + config.idleTtl, old(refreshGrants)[grant].expiresAt))]
      ensures previousIdleExpiresAt == old(refreshGrants)[grant].idleExpiresAt
    {
      refreshTokens := refreshTokens[token := Token(grant, Used)];
      refreshTokens := refreshTokens[rotated := Token(grant, Active)];
      everTokens := everTokens + {rotated};
      previousIdleExpiresAt := refreshGrants[grant].idleExpiresAt;
      refreshGrants := refreshGrants[grant := refreshGrants[grant].(
        idleExpiresAt := Min(now + config.idleTtl, refreshGrants[grant].expiresAt))];
    }

    method TakeBack(token: TokenHash, grant: GrantId, rotated: TokenHash, previousIdleExpiresAt: int)
      requires Valid() && grant in refreshGrants && token in refreshTokens
      modifies `refreshGrants, `refreshTokens
      ensures refreshTokens == (old(refreshTokens) - {rotated})[token := Token(grant, Active)]
      ensures refreshGrants
              == old(refreshGrants)[grant := old(refreshGrants)[grant].(idleExpiresAt := previousIdleExpiresAt)]
    {
      refreshTokens := refreshTokens - {rotated};
      refreshTokens := refreshTokens[token := Token(grant, Active)];
      refreshGrants := refreshGrants[grant := refreshGrants[grant].(idleExpiresAt := previousIdleExpiresAt)];
    }

    // A new process reads the file, refuses one that does not validate, and drops expired grants.
    method NewProcess(now: int, diskOk: bool) returns (started: bool)
      requires storeFile.Some? ==> forall h | h in ImageIn(storeFile.value).tokens :: h in everTokens
      requires storeFile.Some? ==> forall g | g in ImageIn(storeFile.value).grants :: g in origin
      modifies this
      ensures Valid() && started == running
      ensures (old(storeFile).Some? ==> Distinct(old(storeFile.value))) ==>
                Model() == Restart(config, old(Model()), now, diskOk)
      ensures config.durable && old(storeFile).Some? && !Distinct(old(storeFile.value)) ==>
                !started && Model() == Stopped(old(Model()))
    {
      authorizationCodes, refreshGrants, refreshTokens, suspended, running := map[], map[], map[], map[], false;
      if !config.durable {
        running := true;
        return true;
      }
      if storeFile.None? {
        var ok := PersistRefreshState(diskOk);
        running := ok;
        return ok;
      }
      var valid := ValidatePersistedRefreshState(storeFile.value, config.maxRecords);
      if !valid { return false; }
      started := LoadValidated(now, diskOk);
    }

    method LoadValidated(now: int, diskOk: bool) returns (started: bool)
      requires storeFile.Some? && Accepts(ImageIn(storeFile.value), config.maxRecords) && config.durable
      requires (forall h | h in ImageIn(storeFile.value).tokens :: h in everTokens)
      requires (forall g | g in ImageIn(storeFile.value).grants :: g in origin)
      requires Model() == Stopped(Model())
      modifies `refreshGrants, `refreshTokens, `storeFile, `running
      ensures Valid() && started == running
      ensures Model() == Load(config, old(Model()), ImageIn(old(storeFile).value), now, diskOk)
    {
      refreshGrants := GrantsIn(storeFile.value.refreshGrants);
      refreshTokens := TokensIn(storeFile.value.refreshTokens);
      running := true;
      var changed := SweepRefreshGrants(now);
      started := true;
      if changed {
        started := PersistRefreshState(diskOk);
        if !started {
          refreshGrants, refreshTokens, running := map[], map[], false;
        }
      }
    }
  }

  method AnyOutside(scopes: seq<Scope>, allowed: seq<Scope>) returns (outside: bool)
    ensures outside <==> exists k | 0 <= k < |scopes| :: scopes[k] !in allowed
  {
    for n := 0 to |scopes|
      invariant forall k | 0 <= k < n :: scopes[k] in allowed
    {
      if scopes[n] !in allowed { return true; }
    }
    outside := false;
  }
}
