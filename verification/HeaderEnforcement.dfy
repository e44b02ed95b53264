/** Headers owned by a credential: rewritten to hold exactly the credential's template around one valid
    reference, which may occur nowhere else in the request. */
module HeaderEnforcement {
  import opened Common

  type CredentialId = nat
  type Headers = map<string, string>

  datatype Credential = Credential(
    id: CredentialId, enforce: bool, kind: string, name: Option<string>, prefix: Option<string>, suffix: Option<string>)

  // What the broker knows of a reference it accepts: the credential it stands for, if any.
  datatype Record = Record(credential: Option<CredentialId>)

  // A query or body.
  datatype Value = Text(text: string) | Items(items: seq<Value>) | Fields(fields: seq<Field>) | Other
  datatype Field = Field(key: string, value: Value)

  datatype Env = Env(lower: string -> string, inspect: string -> Option<Record>)

  datatype Error = ReferenceInvalid

  // ---------- references in text ----------

  const MARK: string := "gref_"

  predicate IsReferenceChar(c: char) { 'A' <= c <= 'Z' || 'a' <= c <= 'z' || '0' <= c <= '9' || c == '_' || c == '-' }

  // How many reference characters the text begins with.
  function RunLength(s: string): (n: nat)
    ensures n <= |s|
  {
    if s == "" || !IsReferenceChar(s[0]) then 0 else 1 + RunLength(s[1..])
  }

  predicate BeginsReference(s: string) { |s| > 5 && s[..5] == MARK && IsReferenceChar(s[5]) }

  // The longest references from left to right, without overlap.
  function References(s: string): seq<string>
    decreases |s|
  {
    if s == "" then []
    else if BeginsReference(s) then
      var n := RunLength(s[5..]);
      [s[..5 + n]] + References(s[5 + n..])
    else References(s[1..])
  }

  // The shape of whatever is found.
  predicate IsReference(s: string) { BeginsReference(s) && forall i | 0 <= i < |s| :: IsReferenceChar(s[i]) }

  lemma {:induction false} RunIsReferenceChars(s: string)
    ensures forall i | 0 <= i < RunLength(s) :: IsReferenceChar(s[i])
  {
    if s != "" && IsReferenceChar(s[0]) {
      RunIsReferenceChars(s[1..]);
      forall i | 0 <= i < RunLength(s) ensures IsReferenceChar(s[i]) {
        if i > 0 { assert s[i] == s[1..][i - 1]; }
      }
    }
  }

  lemma {:induction false} FoundIsReference(s: string, r: string)
    requires r in References(s)
    ensures IsReference(r)
    decreases |s|
  {
    if !BeginsReference(s) {
      FoundIsReference(s[1..], r);
    } else {
      var n := RunLength(s[5..]);
      if r != s[..5 + n] {
        FoundIsReference(s[5 + n..], r);
      } else {
        RunIsReferenceChars(s[5..]);
        assert s[..5 + n][..5] == s[..5];
        forall i | 0 <= i < |r| ensures IsReferenceChar(r[i]) {
          if i < 5 { assert r[i] == MARK[i]; } else { assert r[i] == s[5..][i - 5]; }
        }
      }
    }
  }

  function FindReferences(v: Value): seq<string>
    decreases v
  {
    match v
    case Text(text) => References(text)
    case Items(items) => InItems(items)
    case Fields(fields) => InFields(fields)
    case Other => []
  }

  function InItems(items: seq<Value>): seq<string>
    decreases items
  {
    if items == [] then [] else FindReferences(items[0]) + InItems(items[1..])
  }

  function InFields(fields: seq<Field>): seq<string>
    decreases fields
  {
    if fields == [] then [] else InField(fields[0]) + InFields(fields[1..])
  }

  function InField(field: Field): seq<string>
    decreases field
  {
    References(field.key) + FindReferences(field.value)
  }

  // ---------- enforced credentials ----------

  predicate IsEnforced(env: Env, c: Credential) { c.enforce && env.lower(c.kind) == "header" && c.name.Some? }

  function Enforced(env: Env, credentials: seq<Credential>): (r: seq<Credential>)
    ensures forall c :: c in r <==> c in credentials && IsEnforced(env, c)
  {
    if credentials == [] then []
    else
      var n := |credentials| - 1;
      assert credentials == credentials[..n] + [credentials[n]];
      if IsEnforced(env, credentials[n]) then
        Enforced(env, credentials[..n]) + [credentials[n]] else Enforced(env, credentials[..n])
  }

  function Template(c: Credential, reference: string): string {
    (if c.prefix.Some? then c.prefix.value else "") + reference + if c.suffix.Some? then c.suffix.value else ""
  }

  // The credentials that own one header name.
  datatype Group = Group(name: string, credentials: seq<Credential>)

  function AddToGroups(env: Env, groups: seq<Group>, c: Credential): seq<Group>
    requires c.name.Some?
  {
    var name := env.lower(c.name.value);
    if groups == [] then [Group(name, [c])]
    else if groups[0].name == name then [Group(name, groups[0].credentials + [c])] + groups[1..]
    else [groups[0]] + AddToGroups(env, groups[1..], c)
  }

  function Groups(env: Env, credentials: seq<Credential>): seq<Group>
    requires forall c | c in credentials :: c.name.Some?
  {
    if credentials == [] then []
    else var n := |credentials| - 1; AddToGroups(env, Groups(env, credentials[..n]), credentials[n])
  }

  predicate GroupOk(env: Env, group: Group) {
    group.credentials != []
      && forall c | c in group.credentials :: c.name.Some? && env.lower(c.name.value) == group.name
  }

  predicate GroupsOk(env: Env, groups: seq<Group>) {
    && (forall i, j | 0 <= i < j < |groups| :: groups[i].name != groups[j].name)
    && (forall i | 0 <= i < |groups| :: GroupOk(env, groups[i]))
  }

  predicate Grouped(groups: seq<Group>, c: Credential) { exists i | 0 <= i < |groups| :: c in groups[i].credentials }

  lemma {:induction false} AddKeepsGroups(env: Env, groups: seq<Group>, c: Credential)
    requires GroupsOk(env, groups) && c.name.Some?
    ensures GroupsOk(env, AddToGroups(env, groups, c))
    ensures forall i | 0 <= i < |AddToGroups(env, groups, c)| ::
              AddToGroups(env, groups, c)[i].name == env.lower(c.name.value)
                || exists j | 0 <= j < |groups| :: groups[j].name == AddToGroups(env, groups, c)[i].name
    ensures forall x :: Grouped(AddToGroups(env, groups, c), x) <==> x == c || Grouped(groups, x)
    decreases |groups|
  {
    var r, name := AddToGroups(env, groups, c), env.lower(c.name.value);
    if groups == [] {
      forall x ensures Grouped(r, x) <==> x == c {
        if x == c { assert x in r[0].credentials; }
      }
    } else if groups[0].name == name {
      forall x ensures Grouped(r, x) <==> x == c || Grouped(groups, x) { AddedToFirst(groups, c, name, x); }
      forall i | 0 <= i < |r| ensures GroupOk(env, r[i]) { if i > 0 { assert r[i] == groups[i]; } }
      forall i, j | 0 <= i < j < |r| ensures r[i].name != r[j].name { assert groups[i].name != groups[j].name; }
    } else {
      var rest := groups[1..];
      assert GroupsOk(env, rest) by {
        forall i | 0 <= i < |rest| ensures GroupOk(env, rest[i]) { assert rest[i] == groups[i + 1]; }
      }
      AddKeepsGroups(env, rest, c);
      var added := AddToGroups(env, rest, c);
      forall j | 0 <= j < |added| ensures added[j].name != groups[0].name {
        if added[j].name != name {
          var k :| 0 <= k < |rest| && rest[k].name == added[j].name;
          assert rest[k] == groups[k + 1];
        }
      }
      forall i | 0 <= i < |r| ensures r[i].name == name || exists j | 0 <= j < |groups| :: groups[j].name == r[i].name {
        if i > 0 && r[i].name != name {
          assert r[i] == added[i - 1];
          var k :| 0 <= k < |rest| && rest[k].name == added[i - 1].name;
          assert groups[k + 1].name == r[i].name;
        }
      }
      forall x ensures Grouped(r, x) <==> x == c || Grouped(groups, x) {
        GroupedSplits(groups, x); GroupedSplits(r, x);
      }
    }
  }

  lemma AddedToFirst(groups: seq<Group>, c: Credential, name: string, x: Credential)
    requires groups != [] && groups[0].name == name
    ensures Grouped([Group(name, groups[0].credentials + [c])] + groups[1..], x) <==> x == c || Grouped(groups, x)
  {
    GroupedSplits(groups, x);
    GroupedSplits([Group(name, groups[0].credentials + [c])] + groups[1..], x);
    assert ([Group(name, groups[0].credentials + [c])] + groups[1..])[1..] == groups[1..];
  }

  lemma GroupedSplits(groups: seq<Group>, x: Credential)
    requires groups != []
    ensures Grouped(groups, x) <==> x in groups[0].credentials || Grouped(groups[1..], x)
  {
    if Grouped(groups, x) && x !in groups[0].credentials {
      var i :| 0 <= i < |groups| && x in groups[i].credentials;
      assert groups[1..][i - 1] == groups[i];
    }
    if Grouped(groups[1..], x) {
      var i :| 0 <= i < |groups[1..]| && x in groups[1..][i].credentials;
      assert groups[i + 1] == groups[1..][i];
    }
  }

  lemma {:induction false} GroupsCover(env: Env, credentials: seq<Credential>)
    requires forall c | c in credentials :: c.name.Some?
    ensures GroupsOk(env, Groups(env, credentials)) && forall c :: Grouped(Groups(env, credentials), c) <==>
              c in credentials
  {
    if credentials != [] {
      var n := |credentials| - 1;
      GroupsCover(env, credentials[..n]);
      AddKeepsGroups(env, Groups(env, credentials[..n]), credentials[n]);
      assert forall c :: c in credentials <==> c in credentials[..n] || c == credentials[n] by {
        assert credentials == credentials[..n] + [credentials[n]];
      }
    }
  }

  // ---------- one owned header ----------

  function Entries(env: Env, headers: Headers, name: string): set<string> {
    set k | k in headers && env.lower(k) == name
  }

  ghost function Candidates(env: Env, headers: Headers, name: string): set<string> {
    set k, r | k in Entries(env, headers, name) && r in References(headers[k]) :: r
  }

  ghost function Valid(env: Env, candidates: set<string>): set<string> {
    set r | r in candidates && env.inspect(r).Some?
  }

  predicate Matches(env: Env, group: Group, reference: string) {
    && env.inspect(reference).Some? && env.inspect(reference).value.credential.Some?
    && exists c | c in group.credentials :: c.id == env.inspect(reference).value.credential.value
  }

  function FindCredential(credentials: seq<Credential>, id: CredentialId): (r: Option<Credential>)
    ensures r.Some? <==> exists c | c in credentials :: c.id == id
    ensures r.Some? ==> r.value in credentials && r.value.id == id
  {
    if credentials == [] then None
    else
      assert credentials == [credentials[0]] + credentials[1..];
      if credentials[0].id == id then Some(credentials[0]) else FindCredential(credentials[1..], id)
  }

  function Owner(env: Env, group: Group, reference: string): Credential
    requires Matches(env, group, reference)
  {
    FindCredential(group.credentials, env.inspect(reference).value.credential.value).value
  }

  function Rewritten(env: Env, headers: Headers, group: Group, reference: string): Headers
    requires GroupOk(env, group) && Matches(env, group, reference)
  {
    var c := Owner(env, group, reference);
    (headers - Entries(env, headers, group.name))[c.name.value := Template(c, reference)]
  }

  // The one valid reference the header's entries hold, if it is the only one and stands for an owner.
  ghost predicate Selects(env: Env, headers: Headers, group: Group, reference: string) {
    Valid(env, Candidates(env, headers, group.name)) == {reference} && Matches(env, group, reference)
  }

  ghost predicate Rewrites(env: Env, headers: Headers, group: Group, after: Headers)
    requires GroupOk(env, group)
  {
    if Entries(env, headers, group.name) == {} then after == headers
    else exists r :: Selects(env, headers, group, r) && after == Rewritten(env, headers, group, r)
  }

  ghost predicate Refused(env: Env, headers: Headers, group: Group) {
    Entries(env, headers, group.name) != {} && forall r :: !Selects(env, headers, group, r)
  }

  method EnforceGroup(env: Env, headers: Headers, group: Group) returns (r: Result<Headers, Error>)
    requires GroupOk(env, group)
    ensures r.Success? ==> Rewrites(env, headers, group, r.value)
    ensures r.Failure? ==> Refused(env, headers, group)
  {
    var entries := set k | k in headers && env.lower(k) == group.name;
    assert entries == Entries(env, headers, group.name);
    if entries == {} { return Success(headers); }
    var valid: set<string> := {};
    var todo := entries;
    while todo != {}
      invariant todo <= entries
      invariant forall x :: x in valid <==>
                  env.inspect(x).Some? && exists k | k in entries - todo :: x in References(headers[k])
      decreases |todo|
    {
      var k :| k in todo;
      var found := ValidReferences(env, References(headers[k]));
      assert entries - (todo - {k}) == (entries - todo) + {k};
      valid := valid + found;
      todo := todo - {k};
    }
    assert valid == Valid(env, Candidates(env, headers, group.name));
    if |valid| != 1 {
      forall x ensures !Selects(env, headers, group, x) { }
      return Failure(ReferenceInvalid);
    }
    var reference :| reference in valid;
    assert valid == {reference} by { Singleton(valid, reference); }
    if !Matches(env, group, reference) { return Failure(ReferenceInvalid); }
    var credential := FindCredential(group.credentials, env.inspect(reference).value.credential.value).value;
    var rest := headers - entries;
    r := Success(rest[credential.name.value := Template(credential, reference)]);
    assert Selects(env, headers, group, reference);
  }

  lemma Singleton(s: set<string>, x: string)
    requires |s| == 1 && x in s
    ensures s == {x}
  {
    assert |s - {x}| == 0;
    assert s == (s - {x}) + {x};
  }

  method ValidReferences(env: Env, references: seq<string>) returns (valid: set<string>)
    ensures forall x :: x in valid <==> env.inspect(x).Some? && x in references
  {
    valid := {};
    for n := 0 to |references|
      invariant forall x :: x in valid <==> env.inspect(x).Some? && x in references[..n]
    {
      assert references[..n + 1] == references[..n] + [references[n]];
      if env.inspect(references[n]).Some? { valid := valid + {references[n]}; }
    }
    assert references[..|references|] == references;
  }

  // ---------- references anywhere else ----------

  // Where a reference stands: in a header, or in the query or body.
  datatype Place = InHeader(name: string, text: string) | Elsewhere

  // A reference that stands for an enforced credential stands in its own header, in its template.
  predicate Placed(env: Env, enforced: seq<Credential>, place: Place, reference: string) {
    if env.inspect(reference).None? || env.inspect(reference).value.credential.None? then true
    else
      var c := FindCredential(enforced, env.inspect(reference).value.credential.value);
      c.Some? ==>
        place.InHeader? && c.value.name.Some? && env.lower(place.name) == env.lower(c.value.name.value)
        && place.text == Template(c.value, reference)
  }

  predicate AllPlaced(env: Env, enforced: seq<Credential>, place: Place, references: seq<string>) {
    forall i | 0 <= i < |references| :: Placed(env, enforced, place, references[i])
  }

  predicate NoneStray(env: Env, enforced: seq<Credential>, headers: Headers, query: Value, body: Value) {
    && (forall k | k in headers :: AllPlaced(env, enforced, InHeader(k, headers[k]), References(headers[k])))
    && AllPlaced(env, enforced, Elsewhere, FindReferences(query))
       && AllPlaced(env, enforced, Elsewhere, FindReferences(body))
  }

  method AssertNoStray(env: Env, enforced: seq<Credential>, headers: Headers, query: Value, body: Value)
    returns (ok: bool)
    ensures ok == NoneStray(env, enforced, headers, query, body)
  {
    var todo := headers.Keys;
    while todo != {}
      invariant todo <= headers.Keys
      invariant forall k | k in headers.Keys - todo ::
                AllPlaced(env, enforced, InHeader(k, headers[k]), References(headers[k]))
      decreases |todo|
    {
      var k :| k in todo;
      todo := todo - {k};
      var placed := CheckPlaced(env, enforced, InHeader(k, headers[k]), References(headers[k]));
      if !placed { return false; }
    }
    ok := CheckPlaced(env, enforced, Elsewhere, FindReferences(query));
    if ok { ok := CheckPlaced(env, enforced, Elsewhere, FindReferences(body)); }
  }

  method CheckPlaced(env: Env, enforced: seq<Credential>, place: Place, references: seq<string>) returns (ok: bool)
    ensures ok == AllPlaced(env, enforced, place, references)
  {
    for n := 0 to |references|
      invariant forall i | 0 <= i < n :: Placed(env, enforced, place, references[i])
    {
      if !Placed(env, enforced, place, references[n]) { return false; }
    }
    ok := true;
  }

  // ---------- the whole rewrite ----------

  // The headers after each group in turn.
  ghost predicate Trace(env: Env, groups: seq<Group>, steps: seq<Headers>)
    requires GroupsOk(env, groups)
  {
    |steps| == |groups| + 1 && forall i | 0 <= i < |groups| :: Rewrites(env, steps[i], groups[i], steps[i + 1])
  }

  ghost predicate Enforces(env: Env, headers: Headers, query: Value, body: Value, credentials: seq<Credential>,
                           after: Headers)
  {
    var enforced := Enforced(env, credentials);
    if enforced == [] then after == headers
    else
      GroupsCover(env, enforced);
      && NoneStray(env, enforced, after, query, body)
      && exists steps :: Trace(env, Groups(env, enforced), steps) && steps[0] == headers && steps[|steps| - 1] == after
  }

  // ---------- a run is determined by its start ----------

  lemma RewritesUnique(env: Env, headers: Headers, group: Group, a: Headers, b: Headers)
    requires GroupOk(env, group) && Rewrites(env, headers, group, a) && Rewrites(env, headers, group, b)
    ensures a == b
  {
    if Entries(env, headers, group.name) != {} {
      var r :| Selects(env, headers, group, r) && a == Rewritten(env, headers, group, r);
      var q :| Selects(env, headers, group, q) && b == Rewritten(env, headers, group, q);
      assert r in Valid(env, Candidates(env, headers, group.name));
      assert r in {q};
    }
  }

  lemma {:induction false} StepsAgree(env: Env, groups: seq<Group>, a: seq<Headers>, b: seq<Headers>, n: nat)
    requires GroupsOk(env, groups) && n < |a| && n < |b| && n <= |groups| && a[0] == b[0]
    requires forall i | 0 <= i < n ::
             Rewrites(env, a[i], groups[i], a[i + 1]) && Rewrites(env, b[i], groups[i], b[i + 1])
    ensures a[n] == b[n]
  {
    if n > 0 {
      StepsAgree(env, groups, a, b, n - 1);
      RewritesUnique(env, a[n - 1], groups[n - 1], a[n], b[n]);
    }
  }

  lemma TraceIsUnique(env: Env, groups: seq<Group>, a: seq<Headers>, b: seq<Headers>, n: nat)
    requires GroupsOk(env, groups) && Trace(env, groups, a) && Trace(env, groups, b) && a[0] == b[0] && n <= |groups|
    ensures a[n] == b[n]
  {
    StepsAgree(env, groups, a, b, n);
  }

  lemma RefusedHasNoTrace(env: Env, groups: seq<Group>, steps: seq<Headers>, other: seq<Headers>, n: nat)
    requires GroupsOk(env, groups) && n < |groups| && |steps| == n + 1
    requires forall i | 0 <= i < n :: Rewrites(env, steps[i], groups[i], steps[i + 1])
    requires Refused(env, steps[n], groups[n]) && other != [] && other[0] == steps[0]
    ensures !Trace(env, groups, other)
  {
    if Trace(env, groups, other) {
      StepsAgree(env, groups, steps, other, n);
      RefusedRewritesNothing(env, steps[n], groups[n], other[n + 1]);
    }
  }

  lemma RefusedRewritesNothing(env: Env, headers: Headers, group: Group, after: Headers)
    requires GroupOk(env, group) && Refused(env, headers, group)
    ensures !Rewrites(env, headers, group, after)
  {
  }

  // The groups in turn, or no headers at all when one of them refuses.
  method EnforceGroups(env: Env, headers: Headers, groups: seq<Group>)
    returns (r: Result<Headers, Error>, ghost steps: seq<Headers>)
    requires GroupsOk(env, groups)
    ensures r.Success? ==> Trace(env, groups, steps) && steps[0] == headers && steps[|steps| - 1] == r.value
    ensures r.Failure? ==> forall other | Trace(env, groups, other) :: other[0] != headers
  {
    var current := headers;
    steps := [headers];
    for n := 0 to |groups|
      invariant |steps| == n + 1 && steps[0] == headers && steps[n] == current
      invariant forall i | 0 <= i < n :: Rewrites(env, steps[i], groups[i], steps[i + 1])
    {
      var next := EnforceGroup(env, current, groups[n]);
      if next.Failure? {
        forall other | Trace(env, groups, other) ensures other[0] != headers {
          if other[0] == headers { RefusedHasNoTrace(env, groups, steps, other, n); }
        }
        return Failure(ReferenceInvalid), steps;
      }
      current := next.value;
      steps := steps + [current];
    }
    r := Success(current);
  }

  method EnforceCredentialHeaderUsage(env: Env, headers: Headers, query: Value, body: Value,
                                      credentials: seq<Credential>)
    returns (r: Result<Headers, Error>)
    ensures r.Success? ==> Enforces(env, headers, query, body, credentials, r.value)
    ensures r.Failure? ==> forall after :: !Enforces(env, headers, query, body, credentials, after)
  {
    var enforced := Enforced(env, credentials);
    if enforced == [] { return Success(headers); }
    GroupsCover(env, enforced);
    var groups := Groups(env, enforced);
    var rewritten;
    ghost var steps;
    rewritten, steps := EnforceGroups(env, headers, groups);
    if rewritten.Failure? { return Failure(ReferenceInvalid); }
    var current := rewritten.value;
    var ok := AssertNoStray(env, enforced, current, query, body);
    if !ok {
      forall other | Trace(env, groups, other) && other[0] == headers ensures other[|other| - 1] == current {
        TraceIsUnique(env, groups, steps, other, |groups|);
      }
      return Failure(ReferenceInvalid);
    }
    r := Success(current);
  }

  // ---------- what the rewritten headers hold ----------

  // A header present before holds one entry now: an owner's template around a reference standing for it.
  ghost predicate Owned(env: Env, before: Headers, after: Headers, group: Group) {
    if Entries(env, before, group.name) == {} then Entries(env, after, group.name) == {}
    else exists c, r | c in group.credentials :: OwnedBy(env, after, group, c, r)
  }

  predicate OwnedBy(env: Env, after: Headers, group: Group, c: Credential, reference: string) {
    && c.name.Some? && Entries(env, after, group.name) == {c.name.value}
    && after[c.name.value] == Template(c, reference)
    && IsReference(reference) && env.inspect(reference) == Some(Record(Some(c.id)))
  }

  // Entries under other names are as before.
  ghost predicate OthersKept(env: Env, before: Headers, after: Headers, names: set<string>) {
    forall k | env.lower(k) !in names :: (k in before <==> k in after) && (k in before ==> before[k] == after[k])
  }

  function NamesOf(groups: seq<Group>): set<string> { set i | 0 <= i < |groups| :: groups[i].name }

  lemma RewritingOwns(env: Env, headers: Headers, group: Group, after: Headers)
    requires GroupOk(env, group) && Rewrites(env, headers, group, after)
    ensures Owned(env, headers, after, group) && OthersKept(env, headers, after, {group.name})
  {
    if Entries(env, headers, group.name) != {} {
      var r :| Selects(env, headers, group, r) && after == Rewritten(env, headers, group, r);
      var c := Owner(env, group, r);
      assert Entries(env, after, group.name) == {c.name.value};
      assert r in Valid(env, Candidates(env, headers, group.name));
      var k :| k in Entries(env, headers, group.name) && r in References(headers[k]);
      FoundIsReference(headers[k], r);
      assert OwnedBy(env, after, group, c, r);
    }
  }

  // What one group owns, rewriting another leaves alone.
  lemma OwnedStays(env: Env, start: Headers, headers: Headers, after: Headers, group: Group, other: Group)
    requires group.name != other.name && Owned(env, start, headers, group)
             && OthersKept(env, headers, after, {other.name})
    ensures Owned(env, start, after, group)
  {
    assert Entries(env, after, group.name) == Entries(env, headers, group.name);
    if Entries(env, start, group.name) != {} {
      var c, r :| c in group.credentials && OwnedBy(env, headers, group, c, r);
      assert c.name.value in Entries(env, headers, group.name);
      assert OwnedBy(env, after, group, c, r);
    }
  }

  lemma {:induction false} TraceOwns(env: Env, groups: seq<Group>, steps: seq<Headers>, n: nat)
    requires GroupsOk(env, groups) && Trace(env, groups, steps) && n <= |groups|
    ensures forall j | 0 <= j < n :: Owned(env, steps[0], steps[n], groups[j])
    ensures OthersKept(env, steps[0], steps[n], NamesOf(groups[..n]))
  {
    if n > 0 {
      TraceOwns(env, groups, steps, n - 1);
      var before, after, last := steps[n - 1], steps[n], groups[n - 1];
      assert Rewrites(env, before, last, after);
      RewritingOwns(env, before, last, after);
      forall j | 0 <= j < n - 1 ensures Owned(env, steps[0], after, groups[j]) {
        OwnedStays(env, steps[0], before, after, groups[j], last);
      }
      NamesGrow(groups, n);
      assert last.name !in NamesOf(groups[..n - 1]);
      SameEntries(env, steps[0], before, last.name, NamesOf(groups[..n - 1]));
      OwnedFromStart(env, steps[0], before, after, last);
    }
  }

  lemma NamesGrow(groups: seq<Group>, n: nat)
    requires 0 < n <= |groups|
    ensures NamesOf(groups[..n]) == NamesOf(groups[..n - 1]) + {groups[n - 1].name}
  {
    assert groups[..n] == groups[..n - 1] + [groups[n - 1]];
    forall x ensures x in NamesOf(groups[..n]) <==> x in NamesOf(groups[..n - 1]) + {groups[n - 1].name} {
      if x in NamesOf(groups[..n - 1]) {
        var i :| 0 <= i < n - 1 && groups[..n - 1][i].name == x;
        assert groups[..n][i].name == x;
      }
      if x == groups[n - 1].name { assert groups[..n][n - 1].name == x; }
      if x in NamesOf(groups[..n]) {
        var i :| 0 <= i < n && groups[..n][i].name == x;
        if i < n - 1 { assert groups[..n - 1][i].name == x; }
      }
    }
  }

  lemma SameEntries(env: Env, before: Headers, after: Headers, name: string, names: set<string>)
    requires OthersKept(env, before, after, names) && name !in names
    ensures Entries(env, before, name) == Entries(env, after, name)
  {
  }

  lemma OwnedFromStart(env: Env, start: Headers, before: Headers, after: Headers, group: Group)
    requires Entries(env, start, group.name) == Entries(env, before, group.name) && Owned(env, before, after, group)
    ensures Owned(env, start, after, group)
  {
  }

  /** When the rewrite succeeds each enforced header present in the request occurs exactly once, with its
      credential's template around one valid reference; a header that was absent stays absent; every
      other header is unchanged; and no reference standing for an enforced credential occurs anywhere
      else in headers, query or body. */
  lemma EnforcedHeadersAreOwned(env: Env, headers: Headers, query: Value, body: Value, credentials: seq<Credential>,
                                after: Headers)
    requires Enforces(env, headers, query, body, credentials, after)
    ensures var enforced := Enforced(env, credentials);
            && (forall c | c in enforced :: exists group ::
                GroupOk(env, group) && c in group.credentials && Owned(env, headers, after, group))
            && (forall k | forall c | c in enforced :: env.lower(k) != env.lower(c.name.value) ::
                  (k in headers <==> k in after) && (k in headers ==> headers[k] == after[k]))
            && NoneStray(env, enforced, after, query, body)
  {
    var enforced := Enforced(env, credentials);
    if enforced != [] {
      GroupsCover(env, enforced);
      var groups := Groups(env, enforced);
      var steps :| Trace(env, groups, steps) && steps[0] == headers && steps[|steps| - 1] == after;
      TraceOwns(env, groups, steps, |groups|);
      assert groups[..|groups|] == groups;
      forall c | c in enforced
        ensures exists group :: GroupOk(env, group) && c in group.credentials && Owned(env, headers, after, group)
      {
        assert Grouped(groups, c);
        var i :| 0 <= i < |groups| && c in groups[i].credentials;
        assert GroupOk(env, groups[i]);
      }
      forall k | forall c | c in enforced :: env.lower(k) != env.lower(c.name.value)
        ensures env.lower(k) !in NamesOf(groups)
      {
        if env.lower(k) in NamesOf(groups) {
          var i :| 0 <= i < |groups| && groups[i].name == env.lower(k);
          var c := groups[i].credentials[0];
          assert GroupOk(env, groups[i]) && c in groups[i].credentials;
          assert Grouped(groups, c);
        }
      }
    } else {
      NothingEnforced(env, after, query, body);
    }
  }

  lemma NothingEnforced(env: Env, after: Headers, query: Value, body: Value)
    ensures NoneStray(env, [], after, query, body)
  {
  }

  // ---------- applying it again ----------

  // The only valid reference in the text is the one it was made with.
  ghost predicate Clean(env: Env, text: string, reference: string) {
    (set r | r in References(text) && env.inspect(r).Some?) == {reference}
  }

  // The owned headers hold no valid reference in their prefixes and suffixes.
  ghost predicate CleanTemplates(env: Env, after: Headers, enforced: seq<Credential>) {
    forall c, r | c in enforced && HeldBy(env, after, c, r) :: Clean(env, Template(c, r), r)
  }

  predicate HeldBy(env: Env, after: Headers, c: Credential, reference: string) {
    && IsReference(reference) && env.inspect(reference) == Some(Record(Some(c.id)))
    && c.name.Some? && c.name.value in after && after[c.name.value] == Template(c, reference)
  }

  // No two credentials share an id.
  predicate DistinctIds(credentials: seq<Credential>) {
    forall i, j | 0 <= i < |credentials| && 0 <= j < |credentials|
      && credentials[i].id == credentials[j].id :: credentials[i] == credentials[j]
  }

  lemma OwnedRewritesToItself(env: Env, before: Headers, after: Headers, group: Group, credentials: seq<Credential>)
    requires GroupOk(env, group) && Owned(env, before, after, group) && DistinctIds(credentials)
    requires forall c | c in group.credentials :: c in credentials
    requires CleanTemplates(env, after, credentials)
    ensures Rewrites(env, after, group, after)
  {
    if Entries(env, after, group.name) != {} {
      var c, r :| c in group.credentials && OwnedBy(env, after, group, c, r);
      assert c.name.value in Entries(env, after, group.name);
      assert HeldBy(env, after, c, r);
      SoleEntryCandidates(env, after, group, c, r);
      assert Matches(env, group, r);
      var owner := Owner(env, group, r);
      assert owner in credentials && c in credentials;
      assert owner == c;
      assert Rewritten(env, after, group, r) == after;
    }
  }

  lemma SoleEntryCandidates(env: Env, after: Headers, group: Group, c: Credential, reference: string)
    requires OwnedBy(env, after, group, c, reference) && c.name.value in after
             && Clean(env, Template(c, reference), reference)
    ensures Valid(env, Candidates(env, after, group.name)) == {reference}
  {
    var text := after[c.name.value];
    forall r ensures r in Candidates(env, after, group.name) <==> r in References(text) {
      if r in References(text) { assert c.name.value in Entries(env, after, group.name); }
    }
  }

  // Applying the rewrite to its own result changes nothing when the owned headers are clean.
  lemma CleanResultStays(env: Env, headers: Headers, query: Value, body: Value, credentials: seq<Credential>,
                         after: Headers)
    requires Enforces(env, headers, query, body, credentials, after) && DistinctIds(Enforced(env, credentials))
    requires CleanTemplates(env, after, Enforced(env, credentials))
    ensures Enforces(env, after, query, body, credentials, after)
  {
    var enforced := Enforced(env, credentials);
    if enforced != [] {
      GroupsCover(env, enforced);
      var groups := Groups(env, enforced);
      var steps :| Trace(env, groups, steps) && steps[0] == headers && steps[|steps| - 1] == after;
      TraceOwns(env, groups, steps, |groups|);
      var again := seq(|groups| + 1, i => after);
      forall i | 0 <= i < |groups| ensures Rewrites(env, again[i], groups[i], again[i + 1]) {
        assert GroupOk(env, groups[i]);
        forall c | c in groups[i].credentials ensures c in enforced { assert Grouped(groups, c); }
        OwnedRewritesToItself(env, headers, after, groups[i], enforced);
      }
      assert Trace(env, groups, again);
    }
  }

  // ---------- when templates are clean ----------

  // The mark does not occur in the text.
  predicate NoMark(s: string) { s == "" || (!StartsWithMark(s) && NoMark(s[1..])) }

  predicate StartsWithMark(s: string) { |s| >= 5 && s[..5] == MARK }

  // The text does not begin with a reference character, as the configuration demands of suffixes.
  predicate Delimited(s: string) { s == "" || !IsReferenceChar(s[0]) }

  lemma {:induction false} RunStops(run: string, rest: string)
    requires (forall i | 0 <= i < |run| :: IsReferenceChar(run[i])) && Delimited(rest)
    ensures RunLength(run + rest) == |run|
    decreases |run|
  {
    if run == "" {
      assert run + rest == rest;
    } else {
      assert (run + rest)[0] == run[0] && (run + rest)[1..] == run[1..] + rest;
      RunStops(run[1..], rest);
    }
  }

  lemma ReferenceFirst(reference: string, suffix: string)
    requires IsReference(reference) && Delimited(suffix) && References(suffix) == []
    ensures References(reference + suffix) == [reference]
  {
    var s := reference + suffix;
    assert s[..5] == reference[..5] && s[5] == reference[5];
    assert s[5..] == reference[5..] + suffix;
    RunStops(reference[5..], suffix);
    assert s[..|reference|] == reference && s[|reference|..] == suffix;
  }

  // A mark begins at no position before the reference: its own letters cannot overlap a mark.
  lemma NoMarkBefore(prefix: string, rest: string)
    requires prefix != "" && NoMark(prefix) && |rest| > 5 && rest[..5] == MARK
    ensures (prefix + rest)[..5] != MARK
  {
    var s := prefix + rest;
    if |prefix| >= 5 {
      assert s[..5] == prefix[..5];
    } else {
      assert s[|prefix|] == 'g';
      assert s[..5][|prefix|] == 'g' && MARK[|prefix|] != 'g';
    }
  }

  /** A prefix without the mark and a delimited suffix without a reference leave the template's reference
      the only one. */
  lemma {:induction false} DelimitedTemplateIsClean(prefix: string, reference: string, suffix: string)
    requires IsReference(reference) && NoMark(prefix) && Delimited(suffix) && References(suffix) == []
    ensures References(prefix + reference + suffix) == [reference]
    decreases |prefix|
  {
    var rest := reference + suffix;
    assert prefix + reference + suffix == prefix + rest;
    if prefix == "" {
      assert prefix + rest == rest;
      ReferenceFirst(reference, suffix);
    } else {
      assert rest[..5] == reference[..5];
      NoMarkBefore(prefix, rest);
      DelimitedTemplateIsClean(prefix[1..], reference, suffix);
      assert (prefix + rest)[1..] == prefix[1..] + reference + suffix;
    }
  }

  // What is configured around the reference: no reference text, and a delimiter after it.
  predicate CleanUsage(c: Credential) {
    && (c.prefix.Some? ==> NoMark(c.prefix.value))
    && (c.suffix.Some? ==> Delimited(c.suffix.value) && References(c.suffix.value) == [])
  }

  lemma CleanUsageIsClean(env: Env, c: Credential, reference: string)
    requires CleanUsage(c) && IsReference(reference) && env.inspect(reference).Some?
    ensures Clean(env, Template(c, reference), reference)
  {
    var prefix, suffix := if c.prefix.Some? then c.prefix.value else "", if c.suffix.Some? then c.suffix.value else "";
    DelimitedTemplateIsClean(prefix, reference, suffix);
    assert Template(c, reference) == prefix + reference + suffix;
  }

  /** Applying the rewrite to its own result changes nothing, whatever the request and the broker, when the
      configured prefixes and suffixes of the enforced credentials hold no reference text. */
  lemma EnforcingTwiceIsOnce(env: Env, headers: Headers, query: Value, body: Value, credentials: seq<Credential>,
                             after: Headers)
    requires Enforces(env, headers, query, body, credentials, after) && DistinctIds(Enforced(env, credentials))
    requires forall c | c in Enforced(env, credentials) :: CleanUsage(c)
    ensures Enforces(env, after, query, body, credentials, after)
    ensures forall again :: Enforces(env, after, query, body, credentials, again) ==> again == after
  {
    var enforced := Enforced(env, credentials);
    forall c, r | c in enforced && HeldBy(env, after, c, r) ensures Clean(env, Template(c, r), r) {
      CleanUsageIsClean(env, c, r);
    }
    CleanResultStays(env, headers, query, body, credentials, after);
    forall again | Enforces(env, after, query, body, credentials, again) ensures again == after {
      ResultIsUnique(env, after, query, body, credentials, after, again);
    }
  }

  lemma ResultIsUnique(env: Env, headers: Headers, query: Value, body: Value, credentials: seq<Credential>, a: Headers,
                       b: Headers)
    requires Enforces(env, headers, query, body, credentials, a) && Enforces(env, headers, query, body, credentials, b)
    ensures a == b
  {
    var enforced := Enforced(env, credentials);
    if enforced != [] {
      GroupsCover(env, enforced);
      var groups := Groups(env, enforced);
      var s :| Trace(env, groups, s) && s[0] == headers && s[|s| - 1] == a;
      var t :| Trace(env, groups, t) && t[0] == headers && t[|t| - 1] == b;
      TraceIsUnique(env, groups, s, t, |groups|);
    }
  }
}
