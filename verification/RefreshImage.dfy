/** The persisted image of the refresh state: when loading accepts it, what loading restores, and how
    overlapping requests can push it past what loading accepts. */
module RefreshImage {
  import opened Common
  import opened RefreshState
  import opened RefreshRotation

  // ---------- acceptance ----------

  predicate TimesOrdered(grants: map<GrantId, Grant>) {
    forall g | g in grants :: 0 <= grants[g].createdAt <= grants[g].idleExpiresAt
  }

  lemma SoleActiveIsLive(image: Image, g: GrantId)
    requires OneLiveToken(image.grants, image.tokens) && g in image.grants
    requires forall h | h in image.tokens :: !image.tokens[h].status.Rotating?
    ensures exists h :: SoleActive(image, g, h)
  {
    var h :| Live(image.tokens, h, g);
    forall k | k in image.tokens && image.tokens[k] == Token(g, Active) ensures k == h {
      assert Live(image.tokens, k, g);
    }
    assert SoleActive(image, g, h);
  }

  lemma OkImageShape(s: State, image: Image)
    requires ImageOk(s, image)
    ensures TokensFit(image) && EachHasOneActive(image)
    ensures TimesOrdered(image.grants) <==> TimesWithin(image.grants)
  {
    forall g | g in image.grants ensures exists h :: SoleActive(image, g, h) { SoleActiveIsLive(image, g); }
  }

  lemma SettledSize(tokens: map<TokenHash, Token>)
    ensures |Settled(tokens)| == |tokens|
  {
    assert Settled(tokens).Keys == tokens.Keys;
    assert |Settled(tokens).Keys| == |tokens.Keys|;
  }

  /** The image of a reachable state is accepted exactly when it fits the record capacity and every
      grant's timestamps are ordered. */
  lemma ImageAcceptedIff(c: Config, s: State)
    requires Memory(s)
    ensures TokensFit(ImageOf(s))
    ensures Accepts(ImageOf(s), c.maxRecords) <==> |s.tokens| <= c.maxRecords && TimesOrdered(s.grants)
  {
    ImageOfIsOk(s);
    OkImageShape(s, ImageOf(s));
    SettledSize(s.tokens);
  }

  lemma LoadRestores(c: Config, s: State, image: Image, now: int)
    requires c.durable && s.disk == Some(image)
    requires TokensFit(image)
    ensures var t := Load(c, s, image, now, true);
            && t.up && t.pending == map[] && t.codes == map[]
            && t.grants == LiveGrants(image.grants, now)
            && t.tokens == KeepTokens(image.tokens, t.grants)
            && t.disk == Some(Image(t.grants, t.tokens))
  {
    var live := LiveGrants(image.grants, now);
    assert Settled(KeepTokens(image.tokens, live)) == KeepTokens(image.tokens, live);
    if live == image.grants { assert KeepTokens(image.tokens, live) == image.tokens; }
  }

  /** A process started from an image that was just written restores the same grants and tokens, with
      rotations read back as not begun, minus the grants that expired. */
  lemma RestartRestores(c: Config, s: State, now: int)
    requires Memory(s) && c.durable
    requires |s.tokens| <= c.maxRecords && TimesOrdered(s.grants)
    ensures var t := Restart(c, Persist(c, s, true), now, true);
            && t.up && t.pending == map[] && t.codes == map[]
            && t.grants == LiveGrants(s.grants, now)
            && t.tokens == KeepTokens(Settled(s.tokens), t.grants)
            && t.disk == Some(Image(t.grants, t.tokens))
  {
    ImageAcceptedIff(c, s);
    LoadRestores(c, Persist(c, s, true), ImageOf(s), now);
  }

  /** Whatever the process revoked without managing to write comes back exactly as the image has it:
      a restart serves a family if and only if the image still holds it unexpired. */
  lemma RestartServesIffImageHolds(c: Config, s: State, now: int, g: GrantId)
    requires c.durable && s.disk.Some? && Accepts(s.disk.value, c.maxRecords)
    ensures g in Restart(c, s, now, true).grants <==> g in s.disk.value.grants && !Expired(s.disk.value.grants[g], now)
  {
  }

  // ---------- a non-decreasing clock keeps timestamps ordered ----------

  predicate PendingTimely(p: Pending, origin: map<GrantId, Grant>, clock: int) {
    0 <= p.now <= clock && (p.Rotation? ==> p.grant in origin && origin[p.grant].createdAt <= p.now)
  }

  predicate OriginTimely(origin: map<GrantId, Grant>, clock: int) {
    forall g | g in origin :: 0 <= origin[g].createdAt <= clock
  }

  predicate Timely(s: State, clock: int) {
    && TimesOrdered(s.grants) && (s.disk.Some? ==> TimesOrdered(s.disk.value.grants))
    && OriginTimely(s.origin, clock)
    && (forall r | r in s.pending :: PendingTimely(s.pending[r], s.origin, clock))
  }

  function ClockAfter(clock: int, step: Step): int {
    match step
    case EndExchange(_, _, _, _, _) => clock
    case EndRotation(_, _, _, _) => clock
    case _ => step.now
  }

  // What a step that only drops grants and codes, or stores memory, leaves timely.
  lemma QuietIsTimely(s: State, t: State, clock: int)
    requires Timely(s, clock) && t.origin == s.origin
    requires forall g | g in t.grants :: g in s.grants && t.grants[g] == s.grants[g]
    requires t.disk == s.disk || t.disk == Some(ImageOf(t))
    requires forall r | r in t.pending :: r in s.pending && t.pending[r] == s.pending[r]
    ensures Timely(t, clock)
  {
    assert TimesOrdered(t.grants);
  }

  lemma SweepIsTimely(c: Config, s: State, now: int, diskOk: bool, clock: int)
    requires Timely(s, clock)
    ensures Timely(SweepAndPersist(c, s, now, diskOk), clock)
  {
    QuietIsTimely(s, SweepAndPersist(c, s, now, diskOk), clock);
  }

  lemma StartRotationIsTimely(c: Config, s: State, step: Step)
    requires step.StartRotation? && Timely(s, step.now) && FromOrigin(s.grants, s.origin) && 0 <= step.now
    ensures Timely(Apply(c, s, step), step.now)
  {
    if Enabled(s, step) {
      var t := SweepAndPersist(c, s, step.now, step.diskOk);
      SweepIsTimely(c, s, step.now, step.diskOk, step.now);
      assert FromOrigin(t.grants, t.origin);
      PresentIsTimely(c, t, step);
    }
  }

  lemma PresentIsTimely(c: Config, s: State, step: Step)
    requires step.StartRotation? && Timely(s, step.now) && FromOrigin(s.grants, s.origin) && 0 <= step.now
    ensures Timely(PresentToken(c, s, step.request, step.token, step.client, step.resource, step.asked, step.now,
                                step.revokeOk), step.now)
  {
  }

  lemma IssueIsTimely(c: Config, s: State, record: Code, now: int, token: TokenHash, grant: GrantId, clock: int)
    requires Timely(s, clock) && grant !in s.origin && 0 <= now <= clock
    ensures Timely(IssueGrant(c, s, record, now, token, grant), clock)
  {
    var t := IssueGrant(c, s, record, now, token, grant);
    forall r | r in t.pending ensures PendingTimely(t.pending[r], t.origin, clock) {
      assert PendingTimely(s.pending[r], s.origin, clock);
    }
  }

  lemma EndExchangeIsTimely(c: Config, s: State, step: Step, clock: int)
    requires step.EndExchange? && Enabled(s, step) && Timely(s, clock)
    ensures Timely(Apply(c, s, step), clock)
  {
    var p, t := s.pending[step.request], s.(pending := s.pending - {step.request});
    QuietIsTimely(s, t, clock);
    if step.signed {
      assert PendingTimely(p, s.origin, clock);
      IssueIsTimely(c, t, p.record, p.now, step.token, step.grant, clock);
      var u := IssueGrant(c, t, p.record, p.now, step.token, step.grant);
      QuietIsTimely(u, Apply(c, s, step), clock);
    }
  }

  lemma EndRotationIsTimely(c: Config, s: State, step: Step, clock: int)
    requires step.EndRotation? && Enabled(s, step) && Timely(s, clock) && FromOrigin(s.grants, s.origin)
    ensures Timely(Apply(c, s, step), clock)
  {
    var p, t := s.pending[step.request], Apply(c, s, step);
    assert PendingTimely(p, s.origin, clock);
    if p.grant in s.grants {
      var u := s.(grants := t.grants, pending := t.pending);
      assert forall g | g in u.grants && g != p.grant :: g in s.grants && u.grants[g] == s.grants[g];
      assert TimesOrdered(u.grants);
      assert Timely(u, clock);
      QuietIsTimely(u, t, clock);
    } else {
      QuietIsTimely(s, t, clock);
    }
  }

  lemma StartExchangeIsTimely(c: Config, s: State, step: Step)
    requires step.StartExchange? && Timely(s, step.now) && 0 <= step.now
    ensures Timely(Apply(c, s, step), step.now)
  {
    var taken := s.(codes := s.codes - {step.code});
    QuietIsTimely(s, taken, step.now);
    SweepIsTimely(c, taken, step.now, step.diskOk, step.now);
  }

  lemma OtherIsTimely(c: Config, s: State, step: Step)
    requires (step.Authorize? || step.Sweep?) && Timely(s, step.now)
    ensures Timely(Apply(c, s, step), step.now)
  {
    QuietIsTimely(s, Apply(c, s, step), step.now);
  }

  lemma LoadIsTimely(c: Config, s: State, image: Image, now: int, diskOk: bool)
    requires Timely(s, now) && TimesOrdered(image.grants)
    ensures Timely(Load(c, s, image, now, diskOk), now)
  {
    var loaded := Stopped(s).(up := true, grants := image.grants, tokens := image.tokens);
    assert Timely(loaded, now);
    QuietIsTimely(loaded, Load(c, s, image, now, diskOk), now);
  }

  lemma RestartIsTimely(c: Config, s: State, step: Step)
    requires step.NewProcess? && Timely(s, step.now)
    ensures Timely(Apply(c, s, step), step.now)
  {
    if c.durable && s.disk.Some? && Accepts(s.disk.value, c.maxRecords) {
      LoadIsTimely(c, s, s.disk.value, step.now, step.diskOk);
    } else {
      QuietIsTimely(s, Apply(c, s, step), step.now);
    }
  }

  lemma StepIsTimely(c: Config, s: State, step: Step, clock: int)
    requires Inv(c, s) && Timely(s, clock) && clock <= ClockAfter(clock, step) && 0 <= ClockAfter(clock, step)
    ensures Timely(Apply(c, s, step), ClockAfter(clock, step))
  {
    var now := ClockAfter(clock, step);
    assert Timely(s, now) by {
      forall r | r in s.pending ensures PendingTimely(s.pending[r], s.origin, now) {
        assert PendingTimely(s.pending[r], s.origin, clock);
      }
    }
    if Enabled(s, step) {
      match step
      case StartExchange(_, _, _, _, _, _, _, _) => StartExchangeIsTimely(c, s, step);
      case StartRotation(_, _, _, _, _, _, _, _) => StartRotationIsTimely(c, s, step);
      case EndExchange(_, _, _, _, _) => EndExchangeIsTimely(c, s, step, clock);
      case EndRotation(_, _, _, _) => EndRotationIsTimely(c, s, step, clock);
      case NewProcess(_, _) => RestartIsTimely(c, s, step);
      case _ => OtherIsTimely(c, s, step);
    }
  }

  function ClockOf(clock: int, steps: seq<Step>): int
    decreases |steps|
  {
    if steps == [] then clock else ClockAfter(ClockOf(clock, steps[..|steps| - 1]), steps[|steps| - 1])
  }

  ghost predicate ClockMovesForward(steps: seq<Step>) {
    forall i | 0 <= i < |steps| :: ClockOf(0, steps[..i]) <= ClockAfter(ClockOf(0, steps[..i]), steps[i])
  }

  /** While the clock never goes back, the image of every reachable state is rejected for one reason
      only: more token records than the capacity. */
  lemma {:induction false} OnlyCapacityRejects(c: Config, steps: seq<Step>)
    requires ClockMovesForward(steps)
    ensures 0 <= ClockOf(0, steps) && Timely(Run(c, FRESH, steps), ClockOf(0, steps))
    ensures Accepts(ImageOf(Run(c, FRESH, steps)), c.maxRecords) <==> |Run(c, FRESH, steps).tokens| <= c.maxRecords
    decreases |steps|
  {
    EveryRunKeepsInv(c, FRESH, steps);
    if steps != [] {
      var init := steps[..|steps| - 1];
      assert forall i | 0 <= i < |init| :: init[..i] == steps[..i];
      OnlyCapacityRejects(c, init);
      EveryRunKeepsInv(c, FRESH, init);
      assert ClockOf(0, steps[..|steps| - 1]) <= ClockAfter(ClockOf(0, steps[..|steps| - 1]), steps[|steps| - 1]);
      StepIsTimely(c, Run(c, FRESH, init), steps[|steps| - 1], ClockOf(0, init));
    }
    ImageAcceptedIff(c, Run(c, FRESH, steps));
  }

  // ---------- the capacity check happens before the await ----------

  lemma SuccessWritesImage(c: Config, s: State, request: RequestId, token: TokenHash, grant: GrantId)
    requires request in s.pending && s.pending[request].Exchange?
    ensures var t := FinishExchange(c, s, request, true, token, grant, true);
            && t.tokens == s.tokens[token := Token(grant, Active)] && t.up == s.up
            && |t.issued| == |s.issued| + 1 && t.pending == s.pending - {request}
            && (c.durable ==> t.disk == Some(ImageOf(t)))
  {
  }

  lemma SuccessAddsToken(c: Config, s: State, request: RequestId, token: TokenHash, grant: GrantId)
    requires request in s.pending && s.pending[request].Exchange? && token !in s.tokens
    ensures var t := FinishExchange(c, s, request, true, token, grant, true);
            && |t.tokens| == |s.tokens| + 1 && t.tokens.Keys == s.tokens.Keys + {token} && t.up == s.up
            && |t.issued| == |s.issued| + 1 && t.pending == s.pending - {request}
            && (c.durable ==> t.disk == Some(ImageOf(t)))
  {
    SuccessWritesImage(c, s, request, token, grant);
    var tokens := FinishExchange(c, s, request, true, token, grant, true).tokens;
    assert tokens.Keys == s.tokens.Keys + {token};
    assert |tokens| == |tokens.Keys| && |s.tokens| == |s.tokens.Keys|;
  }

  lemma FullImageStopsRestart(c: Config, s: State, now: int, diskOk: bool)
    requires c.durable && s.disk == Some(ImageOf(s)) && |s.tokens| > c.maxRecords
    ensures !Restart(c, s, now, diskOk).up
  {
    SettledSize(s.tokens);
  }

  /** Two exchanges that both passed the capacity check while one place was left are both answered
      with success, and the image they leave stops the next process from starting. */
  lemma OverlapOverflows(c: Config, s: State, r: RequestId, q: RequestId, token: TokenHash, other: TokenHash,
                         grant: GrantId, another: GrantId, now: int, diskOk: bool)
    requires c.durable && r != q && token != other && token !in s.tokens && other !in s.tokens
    requires |s.tokens| + 1 == c.maxRecords
    requires r in s.pending && s.pending[r].Exchange? && q in s.pending && s.pending[q].Exchange?
    ensures var t1 := FinishExchange(c, s, r, true, token, grant, true);
            && q in t1.pending && t1.pending[q].Exchange?
            && var t := FinishExchange(c, t1, q, true, other, another, true);
               |t.issued| == |s.issued| + 2 && |t.tokens| == c.maxRecords + 1 && !Restart(c, t, now, diskOk).up
  {
    var t1 := FinishExchange(c, s, r, true, token, grant, true);
    SuccessAddsToken(c, s, r, token, grant);
    SuccessAddsToken(c, t1, q, other, another);
    FullImageStopsRestart(c, FinishExchange(c, t1, q, true, other, another, true), now, diskOk);
  }

  // The smallest instance: room for one token record, two codes presented one after the other.
  const SMALL: Config := Config(1000, 1000, 1, 10, true)
  const SAMPLE_CODE: Code := Code(0, 0, 0, [], 0, 0, 100)
  const ONE_CODE: State := FRESH.(codes := map[0 := SAMPLE_CODE], everCodes := {0})
  const TWO_CODES: State := FRESH.(codes := map[0 := SAMPLE_CODE, 1 := SAMPLE_CODE], everCodes := {0, 1})
  const ONE_WAITING: State :=
    FRESH.(codes := map[1 := SAMPLE_CODE], everCodes := {0, 1}, pending := map[0 := Exchange(0, SAMPLE_CODE, 1)])
  const TWO_WAITING: State :=
    FRESH.(everCodes := {0, 1}, pending := map[0 := Exchange(0, SAMPLE_CODE, 1), 1 := Exchange(1, SAMPLE_CODE, 1)])

  lemma AuthorizeAdds(c: Config, s: State, code: CodeId, record: Code, now: int)
    requires |s.codes| < c.maxCodes && forall k | k in s.codes :: s.codes[k].expiresAt > now
    ensures AuthorizeCode(c, s, code, record, now)
            == s.(codes := s.codes[code := record], everCodes := s.everCodes + {code})
  {
    assert LiveCodes(s.codes, now) == s.codes;
  }

  lemma CodesAreIssued()
    ensures AuthorizeCode(SMALL, FRESH, 0, SAMPLE_CODE, 0) == ONE_CODE
    ensures AuthorizeCode(SMALL, ONE_CODE, 1, SAMPLE_CODE, 0) == TWO_CODES
  {
    AuthorizeAdds(SMALL, FRESH, 0, SAMPLE_CODE, 0);
    AuthorizeAdds(SMALL, ONE_CODE, 1, SAMPLE_CODE, 0);
  }

  lemma EmptySweep(s: State, now: int)
    requires s.grants == map[] && s.tokens == map[]
    ensures SweepAndPersist(SMALL, s, now, true) == s
  {
    assert SweepGrants(s, now) == s;
  }

  lemma ExchangesStart()
    ensures BeginExchange(SMALL, TWO_CODES, 0, 0, 0, 0, None, 0, 1, true) == ONE_WAITING
    ensures BeginExchange(SMALL, ONE_WAITING, 1, 1, 0, 0, None, 0, 1, true) == TWO_WAITING
  {
    assert TWO_CODES.codes - {0} == map[1 := SAMPLE_CODE];
    EmptySweep(TWO_CODES.(codes := map[1 := SAMPLE_CODE]), 1);
    assert ONE_WAITING.codes - {1} == map[];
    EmptySweep(ONE_WAITING.(codes := map[]), 1);
  }

  /** From an empty server with room for one record, two overlapping exchanges both succeed and the
      next process does not start. */
  lemma OverlapStopsRestart(now: int, diskOk: bool)
    ensures var s := BeginExchange(SMALL, BeginExchange(SMALL,
                       AuthorizeCode(SMALL, AuthorizeCode(SMALL, FRESH, 0, SAMPLE_CODE, 0), 1, SAMPLE_CODE, 0),
                       0, 0, 0, 0, None, 0, 1, true), 1, 1, 0, 0, None, 0, 1, true);
            && s == TWO_WAITING
            && var t1 := FinishExchange(SMALL, s, 0, true, 10, 20, true);
               && 1 in t1.pending && t1.pending[1].Exchange?
               && var t := FinishExchange(SMALL, t1, 1, true, 11, 21, true);
                  |t.issued| == 2 && !Restart(SMALL, t, now, diskOk).up
  {
    CodesAreIssued();
    ExchangesStart();
    OverlapOverflows(SMALL, TWO_WAITING, 0, 1, 10, 11, 20, 21, now, diskOk);
  }

  // ---------- a clock that went back ----------

  /** A rotation that began so long before the creation of its grant, by the clock of that moment, that its
      idle time ends before it too is answered with success, and its image stops the next process from
      starting, however much room the store has. */
  lemma BackwardRotationStopsRestart(c: Config, s: State, r: RequestId, rotated: TokenHash, now: int, diskOk: bool)
    requires c.durable && r in s.pending && s.pending[r].Rotation?
    requires var p := s.pending[r];
             && p.grant in s.grants && p.token in s.tokens && s.tokens[p.token] == Token(p.grant, Rotating)
             && p.now + c.idleTtl < s.grants[p.grant].createdAt
    ensures var t := FinishRotation(c, s, r, true, rotated, true);
            |t.issued| == |s.issued| + 1 && !Restart(c, t, now, diskOk).up
  {
    var g := s.pending[r].grant;
    var t := FinishRotation(c, s, r, true, rotated, true);
    assert t.grants[g].idleExpiresAt < t.grants[g].createdAt;
    assert t.disk == Some(ImageOf(t)) && !TimesWithin(t.grants);
  }

  // Room for two records; the code is exchanged at 5000 and the token presented when the clock reads 0.
  const ROOMY: Config := Config(1000, 1000, 2, 10, true)
  const LATE_CODE: Code := Code(0, 0, 0, [], 0, 0, 10000)
  const BACKWARD: seq<Step> :=
    [Authorize(0, LATE_CODE, 5000), StartExchange(0, 0, 0, 0, None, 0, 5000, true), EndExchange(0, true, 10, 20, true),
     StartRotation(1, 10, 0, None, None, 0, true, true), EndRotation(1, true, 11, true)]

  const LATE_GRANT: Grant := Grant(0, 0, [], 0, 5000, 6000, 6000)
  const WAITING_EXCHANGE: State := FRESH.(everCodes := {0}, pending := map[0 := Exchange(0, LATE_CODE, 5000)])
  const HELD: Image := Image(map[20 := LATE_GRANT], map[10 := Token(20, Active)])
  const ISSUED: State :=
    FRESH.(everCodes := {0}, grants := HELD.grants, tokens := HELD.tokens, disk := Some(HELD),
           issued := [Issue(FromCode(0), 20, [])], origin := HELD.grants, everTokens := {10})
  const WAITING_ROTATION: State :=
    ISSUED.(tokens := map[10 := Token(20, Rotating)], pending := map[1 := Rotation(10, 20, [], 0)])

  const LATE_ISSUED: State := FRESH.(codes := map[0 := LATE_CODE], everCodes := {0})

  lemma CodeIsAuthorized()
    ensures Apply(ROOMY, FRESH, BACKWARD[0]) == LATE_ISSUED
  {
    AuthorizeAdds(ROOMY, FRESH, 0, LATE_CODE, 5000);
  }

  lemma CodeIsPresented()
    ensures Apply(ROOMY, LATE_ISSUED, BACKWARD[1]) == WAITING_EXCHANGE
  {
    var taken := LATE_ISSUED.(codes := map[]);
    assert LATE_ISSUED.codes - {0} == map[];
    assert SweepGrants(taken, 5000) == taken;
    assert AdmitExchange(ROOMY, taken, 0, 0, LATE_CODE, 5000, true) == WAITING_EXCHANGE;
  }

  lemma CodeIsExchanged()
    ensures Apply(ROOMY, WAITING_EXCHANGE, BACKWARD[2]) == ISSUED
  {
    var s3 := Apply(ROOMY, WAITING_EXCHANGE, BACKWARD[2]);
    assert WAITING_EXCHANGE.pending - {0} == map[];
    assert s3.grants == HELD.grants && s3.tokens == HELD.tokens && s3.origin == HELD.grants;
    assert Settled(HELD.tokens) == HELD.tokens;
  }

  lemma TokenIsPresented()
    ensures Apply(ROOMY, ISSUED, BACKWARD[3]) == WAITING_ROTATION
  {
    assert LiveGrants(ISSUED.grants, 0) == ISSUED.grants;
    assert KeepTokens(ISSUED.tokens, ISSUED.grants) == ISSUED.tokens;
    assert SweepGrants(ISSUED, 0) == ISSUED;
    assert RotationScopes(ISSUED, 10, 0, None, None) == Some([]);
    assert |ISSUED.tokens| == 1;
  }

  lemma FirstTwo()
    ensures Run(ROOMY, FRESH, BACKWARD[..2]) == WAITING_EXCHANGE
  {
    var b := BACKWARD;
    assert b[..1] == [] + [b[0]] && b[..2] == b[..1] + [b[1]];
    RunLast(ROOMY, FRESH, [], b[0]);
    CodeIsAuthorized();
    RunLast(ROOMY, FRESH, b[..1], b[1]);
    CodeIsPresented();
  }

  lemma FirstFour()
    ensures Run(ROOMY, FRESH, BACKWARD[..4]) == WAITING_ROTATION
  {
    var b := BACKWARD;
    assert b[..3] == b[..2] + [b[2]] && b[..4] == b[..3] + [b[3]];
    FirstTwo();
    RunLast(ROOMY, FRESH, b[..2], b[2]);
    CodeIsExchanged();
    RunLast(ROOMY, FRESH, b[..3], b[3]);
    TokenIsPresented();
  }

  lemma RunLast(c: Config, s: State, steps: seq<Step>, last: Step)
    ensures Run(c, s, steps + [last]) == Apply(c, Run(c, s, steps), last)
  {
    assert (steps + [last])[..|steps|] == steps;
  }

  /** A run from an empty server with a clock that goes back once, in which every request succeeds and the
      store is within its capacity, but the next process does not start. */
  lemma BackwardClockStopsRestart(now: int, diskOk: bool)
    ensures var s := Run(ROOMY, FRESH, BACKWARD);
            && |s.issued| == 2 && |s.tokens| <= ROOMY.maxRecords && !TimesOrdered(s.grants)
            && !Restart(ROOMY, s, now, diskOk).up
  {
    FirstFour();
    assert BACKWARD == BACKWARD[..4] + [BACKWARD[4]];
    RunLast(ROOMY, FRESH, BACKWARD[..4], BACKWARD[4]);
    var s := FinishRotation(ROOMY, WAITING_ROTATION, 1, true, 11, true);
    BackwardRotationStopsRestart(ROOMY, WAITING_ROTATION, 1, 11, now, diskOk);
    assert s.tokens == map[10 := Token(20, Used), 11 := Token(20, Active)];
    assert |s.tokens.Keys| == |{10, 11}|;
    assert s.grants[20].idleExpiresAt == 1000;
  }

  // ---------- while requests do not overlap the capacity holds ----------

  predicate Alone(s: State, step: Step) {
    step.StartExchange? || step.StartRotation? ==> s.pending == map[]
  }

  predicate FitsWhenAlone(c: Config, s: State) {
    |s.pending| <= 1 && |s.tokens| + |s.pending| <= c.maxRecords
  }

  lemma SmallerMap<K, V>(a: map<K, V>, b: map<K, V>)
    requires a.Keys <= b.Keys
    ensures |a| <= |b|
  {
    var extra := b.Keys - a.Keys;
    assert b.Keys == a.Keys + extra && a.Keys !! extra;
    assert |b.Keys| == |a.Keys| + |extra| && |a| == |a.Keys| && |b| == |b.Keys|;
  }

  lemma SweepFits(c: Config, s: State, now: int, diskOk: bool)
    ensures var t := SweepAndPersist(c, s, now, diskOk); |t.tokens| <= |s.tokens| && t.pending == s.pending
  {
    SmallerMap(SweepAndPersist(c, s, now, diskOk).tokens, s.tokens);
  }

  lemma ExchangeFits(c: Config, s: State, request: RequestId, code: CodeId, record: Code, now: int, diskOk: bool)
    requires FitsWhenAlone(c, s) && s.pending == map[]
    ensures FitsWhenAlone(c, AdmitExchange(c, s, request, code, record, now, diskOk))
  {
    SweepFits(c, s, now, diskOk);
  }

  lemma RotationFits(c: Config, s: State, request: RequestId, token: TokenHash, scopes: seq<Scope>, now: int)
    requires FitsWhenAlone(c, s) && s.pending == map[] && token in s.tokens
    ensures FitsWhenAlone(c, AdmitRotation(c, s, request, token, scopes, now))
  {
  }

  lemma PresentFits(c: Config, s: State, step: Step)
    requires FitsWhenAlone(c, s) && s.pending == map[] && step.StartRotation?
    ensures FitsWhenAlone(c,
                          PresentToken(c, s, step.request, step.token, step.client, step.resource, step.asked,
                                       step.now, step.revokeOk))
  {
    if step.token in s.tokens && s.tokens[step.token].grant in s.grants {
      var g := s.tokens[step.token].grant;
      SmallerMap(KeepTokens(s.tokens, s.grants - {g}), s.tokens);
      if s.tokens[step.token].status.Active? {
        var scopes := RotationScopes(s, step.token, step.client, step.resource, step.asked);
        if scopes.Some? { RotationFits(c, s, step.request, step.token, scopes.value, step.now); }
      }
    }
  }

  lemma StartRotationFits(c: Config, s: State, step: Step)
    requires FitsWhenAlone(c, s) && s.pending == map[] && step.StartRotation?
    ensures FitsWhenAlone(c,
                          BeginRotation(c, s, step.request, step.token, step.client, step.resource, step.asked,
                                        step.now, step.diskOk, step.revokeOk))
  {
    SweepFits(c, s, step.now, step.diskOk);
    PresentFits(c, SweepAndPersist(c, s, step.now, step.diskOk), step);
  }

  lemma StartExchangeFits(c: Config, s: State, step: Step)
    requires FitsWhenAlone(c, s) && s.pending == map[] && step.StartExchange?
    ensures FitsWhenAlone(c,
                          BeginExchange(c, s, step.request, step.code, step.client, step.redirectUri, step.resource,
                                        step.challenge, step.now, step.diskOk))
  {
    if step.code in s.codes {
      ExchangeFits(c, s.(codes := s.codes - {step.code}), step.request, step.code, s.codes[step.code], step.now,
                   step.diskOk);
    }
  }

  lemma LastOneLeaves(s: State, request: RequestId)
    requires |s.pending| <= 1 && request in s.pending
    ensures |s.pending| == 1 && |s.pending - {request}| == 0
  {
    assert s.pending == (s.pending - {request})[request := s.pending[request]];
  }

  lemma EndExchangeFits(c: Config, s: State, request: RequestId, signed: bool, token: TokenHash, grant: GrantId,
                        diskOk: bool)
    requires FitsWhenAlone(c, s) && request in s.pending && s.pending[request].Exchange?
    ensures FitsWhenAlone(c, FinishExchange(c, s, request, signed, token, grant, diskOk))
  {
    LastOneLeaves(s, request);
    SmallerMap(FinishExchange(c, s, request, signed, token, grant, diskOk).tokens,
               s.tokens[token := Token(grant, Active)]);
  }

  lemma EndRotationFits(c: Config, s: State, request: RequestId, signed: bool, rotated: TokenHash, diskOk: bool)
    requires FitsWhenAlone(c, s) && request in s.pending && s.pending[request].Rotation?
    ensures FitsWhenAlone(c, FinishRotation(c, s, request, signed, rotated, diskOk))
  {
    LastOneLeaves(s, request);
    var p := s.pending[request];
    var t := FinishRotation(c, s, request, signed, rotated, diskOk);
    if p.token in s.tokens {
      SmallerMap(t.tokens, s.tokens[rotated := Token(p.grant, Active)]);
    }
  }

  /** When a request starts only while no other waits, the capacity holds over every run. */
  lemma {:induction false} SerialRunsFit(c: Config, steps: seq<Step>)
    requires forall i | 0 <= i < |steps| :: Alone(Run(c, FRESH, steps[..i]), steps[i])
    ensures FitsWhenAlone(c, Run(c, FRESH, steps))
    decreases |steps|
  {
    if steps != [] {
      var init, step := steps[..|steps| - 1], steps[|steps| - 1];
      forall i | 0 <= i < |init| ensures Alone(Run(c, FRESH, init[..i]), init[i]) {
        assert init[..i] == steps[..i];
        assert Alone(Run(c, FRESH, steps[..i]), steps[i]);
      }
      SerialRunsFit(c, init);
      var s := Run(c, FRESH, init);
      assert Alone(Run(c, FRESH, steps[..|steps| - 1]), step);
      StepFits(c, s, step);
    }
  }

  lemma StepFits(c: Config, s: State, step: Step)
    requires FitsWhenAlone(c, s) && Alone(s, step)
    ensures FitsWhenAlone(c, Apply(c, s, step))
  {
    if Enabled(s, step) {
      match step
      case StartExchange(_, _, _, _, _, _, _, _) => StartExchangeFits(c, s, step);
      case StartRotation(_, _, _, _, _, _, _, _) => StartRotationFits(c, s, step);
      case EndExchange(r, signed, token, grant, ok) => EndExchangeFits(c, s, r, signed, token, grant, ok);
      case EndRotation(r, signed, rotated, ok) => EndRotationFits(c, s, r, signed, rotated, ok);
      case NewProcess(now, ok) => RestartFits(c, s, now, ok);
      case Sweep(now, ok) =>
        SweepFits(c, s.(codes := LiveCodes(s.codes, now)), now, ok);
      case Authorize(_, _, _) =>
    }
  }

  lemma RestartFits(c: Config, s: State, now: int, diskOk: bool)
    ensures FitsWhenAlone(c, Restart(c, s, now, diskOk))
  {
    if c.durable && s.disk.Some? && Accepts(s.disk.value, c.maxRecords) {
      SmallerMap(Restart(c, s, now, diskOk).tokens, s.disk.value.tokens);
    }
  }
}
