/** The recogniser of the regular expressions a matcher may use, up to their final compilation. */
module AnchoredRegex {
  import opened Common
  import opened Lists

  datatype Kind = HostKind | PathKind

  const MAX_CLASS: nat := 64

  function MaxLength(kind: Kind): nat { if kind.HostKind? then 256 else 2048 }

  predicate IsAlnum(c: char) { 'A' <= c <= 'Z' || 'a' <= c <= 'z' || '0' <= c <= '9' }

  predicate IsClassChar(c: char) { IsAlnum(c) || c == '.' || c == '_' || c == '~' || c == '/' || c == '-' }

  predicate IsLiteral(kind: Kind, c: char) { if kind.HostKind? then IsAlnum(c) || c == '-' else IsClassChar(c) }

  predicate IsEscapable(kind: Kind, c: char) { c == '.' || c == '-' || (kind.PathKind? && c == '/') }

  predicate IsQuantifier(c: char) { c == '+' || c == '*' || c == '?' }

  predicate IsClass(s: string) { 1 <= |s| <= MAX_CLASS && forall i | 0 <= i < |s| :: IsClassChar(s[i]) }

  // ---------- the grammar ----------

  datatype Atom = Escape(c: char) | Class(chars: string) | Literal(c: char)

  // An atom with at most one quantifier.
  datatype Item = Item(atom: Atom, quantifier: Option<char>)

  predicate AtomOk(kind: Kind, a: Atom) {
    match a
    case Escape(c) => IsEscapable(kind, c)
    case Class(chars) => IsClass(chars)
    case Literal(c) => IsLiteral(kind, c)
  }

  predicate ItemOk(kind: Kind, item: Item) {
    AtomOk(kind, item.atom) && (item.quantifier.Some? ==> IsQuantifier(item.quantifier.value))
  }

  predicate ItemsOk(kind: Kind, items: seq<Item>) { forall i | 0 <= i < |items| :: ItemOk(kind, items[i]) }

  function PrintAtom(a: Atom): string {
    match a
    case Escape(c) => ['\\', c]
    case Class(chars) => "[" + chars + "]"
    case Literal(c) => [c]
  }

  function PrintItem(item: Item): string {
    PrintAtom(item.atom) + if item.quantifier.Some? then [item.quantifier.value] else ""
  }

  function Print(items: seq<Item>): string { if items == [] then "" else PrintItem(items[0]) + Print(items[1..]) }

  ghost predicate InGrammar(kind: Kind, value: string) {
    && 3 <= |value| <= MaxLength(kind)
    && exists items :: items != [] && ItemsOk(kind, items) && value == "^" + Print(items) + "$"
  }

  // ---------- scanning ----------

  datatype Scanned = Nothing | AtomSeen | QuantifierSeen

  // The rest of the expression is acceptable after what was seen last.
  predicate Scan(s: string, kind: Kind, seen: Scanned)
    decreases |s|
  {
    if s == "" then !seen.Nothing?
    else if s[0] == '\\' then |s| >= 2 && IsEscapable(kind, s[1]) && Scan(s[2..], kind, AtomSeen)
    else if s[0] == '[' then
      var end := IndexOf(s[1..], ']');
      end.Some? && IsClass(s[1..][..end.value]) && Scan(s[1..][end.value + 1..], kind, AtomSeen)
    else if IsQuantifier(s[0]) then seen.AtomSeen? && Scan(s[1..], kind, QuantifierSeen)
    else IsLiteral(kind, s[0]) && Scan(s[1..], kind, AtomSeen)
  }

  predicate Accepts(kind: Kind, value: string) {
    && 3 <= |value| <= MaxLength(kind) && value[0] == '^' && value[|value| - 1] == '$' && '%' !in value
    && Scan(value[1..|value| - 1], kind, Nothing)
  }

  // True when the expression goes on to be compiled.
  method AssertAnchoredLinearRegex(value: string, kind: Kind) returns (safe: bool)
    ensures safe <==> InGrammar(kind, value)
  {
    AcceptsIff(kind, value);
    if |value| < 3 || |value| > MaxLength(kind) || value[0] != '^' || value[|value| - 1] != '$' || '%' in value {
      return false;
    }
    safe := ScanExpression(value[1..|value| - 1], kind);
  }

  // What the scan goes on with after an escape, a class, or any other character at the index.
  lemma AfterEscape(s: string, kind: Kind, seen: Scanned, i: nat)
    requires i < |s| && s[i] == '\\'
    ensures Scan(s[i..], kind, seen) <==> i + 1 < |s| && IsEscapable(kind, s[i + 1]) && Scan(s[i + 2..], kind, AtomSeen)
  {
    if i + 1 < |s| { assert s[i..][2..] == s[i + 2..]; }
  }

  lemma AfterClass(s: string, kind: Kind, seen: Scanned, i: nat)
    requires i < |s| && s[i] == '['
    ensures var end := IndexOf(s[i + 1..], ']');
            Scan(s[i..], kind, seen) <==>
              end.Some? && IsClass(s[i + 1..i + 1 + end.value]) && Scan(s[i + end.value + 2..], kind, AtomSeen)
  {
    assert s[i..][1..] == s[i + 1..];
    var end := IndexOf(s[i + 1..], ']');
    if end.Some? {
      assert s[i + 1..][..end.value] == s[i + 1..i + 1 + end.value];
      assert s[i + 1..][end.value + 1..] == s[i + end.value + 2..];
    }
  }

  lemma AfterOther(s: string, kind: Kind, seen: Scanned, i: nat)
    requires i < |s| && s[i] != '\\' && s[i] != '['
    ensures Scan(s[i..], kind, seen) <==>
              if IsQuantifier(s[i]) then seen.AtomSeen? && Scan(s[i + 1..], kind, QuantifierSeen)
              else IsLiteral(kind, s[i]) && Scan(s[i + 1..], kind, AtomSeen)
  {
    assert s[i..][1..] == s[i + 1..];
  }

  method ScanExpression(expression: string, kind: Kind) returns (safe: bool)
    ensures safe <==> Scan(expression, kind, Nothing)
  {
    var previousWasAtom, previousWasQuantifier := false, false;
    var index: nat := 0;
    while index < |expression|
      invariant index <= |expression| && !(previousWasAtom && previousWasQuantifier)
      invariant Scan(expression, kind, Nothing) <==>
                  Scan(expression[index..], kind, Seen(previousWasAtom, previousWasQuantifier))
    {
      var character := expression[index];
      ghost var seen := Seen(previousWasAtom, previousWasQuantifier);
      if character == '\\' {
        AfterEscape(expression, kind, seen, index);
        if index + 1 >= |expression| || !IsEscapable(kind, expression[index + 1]) { return false; }
        index := index + 2;
        previousWasAtom, previousWasQuantifier := true, false;
        continue;
      }
      if character == '[' {
        AfterClass(expression, kind, seen, index);
        var end := IndexOf(expression[index + 1..], ']');
        if end.None? { return false; }
        var characterClass := expression[index + 1..index + 1 + end.value];
        if !IsClass(characterClass) { return false; }
        index := index + end.value + 2;
        previousWasAtom, previousWasQuantifier := true, false;
        continue;
      }
      AfterOther(expression, kind, seen, index);
      if IsQuantifier(character) {
        if !previousWasAtom || previousWasQuantifier { return false; }
        index := index + 1;
        previousWasAtom, previousWasQuantifier := false, true;
        continue;
      }
      if !IsLiteral(kind, character) { return false; }
      index := index + 1;
      previousWasAtom, previousWasQuantifier := true, false;
    }
    safe := previousWasAtom || previousWasQuantifier;
  }

  function Seen(atom: bool, quantifier: bool): Scanned {
    if atom then AtomSeen else if quantifier then QuantifierSeen else Nothing
  }

  // ---------- scanning is parsing ----------

  // What is accepted after an atom is a quantifier or nothing, then items.
  lemma {:induction false} Parsed(s: string, kind: Kind, seen: Scanned)
    returns (quantifier: Option<char>, items: seq<Item>)
    requires Scan(s, kind, seen)
    ensures ItemsOk(kind, items) && (quantifier.Some? ==> seen.AtomSeen? && IsQuantifier(quantifier.value))
    ensures s == (if quantifier.Some? then [quantifier.value] else "") + Print(items)
    ensures seen.Nothing? ==> items != []
    decreases |s|
  {
    quantifier, items := None, [];
    if s == "" { return; }
    if IsQuantifier(s[0]) {
      var none, rest := Parsed(s[1..], kind, QuantifierSeen);
      quantifier, items := Some(s[0]), rest;
      assert none == None && s[1..] == Print(rest);
    } else {
      var atom, tail := FirstAtom(s, kind, seen);
      var q, rest := Parsed(tail, kind, AtomSeen);
      items := Extended(atom, q, rest, kind, tail);
    }
  }

  lemma FirstAtom(s: string, kind: Kind, seen: Scanned) returns (atom: Atom, tail: string)
    requires s != "" && Scan(s, kind, seen) && !IsQuantifier(s[0])
    ensures AtomOk(kind, atom) && s == PrintAtom(atom) + tail && |tail| < |s| && Scan(tail, kind, AtomSeen)
  {
    if s[0] == '\\' {
      atom, tail := Escape(s[1]), s[2..];
    } else if s[0] == '[' {
      var end := IndexOf(s[1..], ']').value;
      atom, tail := Class(s[1..][..end]), s[1..][end + 1..];
      assert s[1..] == s[1..][..end] + "]" + tail;
      assert s == "[" + s[1..];
    } else {
      atom, tail := Literal(s[0]), s[1..];
    }
  }

  lemma Extended(atom: Atom, q: Option<char>, rest: seq<Item>, kind: Kind, tail: string) returns (items: seq<Item>)
    requires AtomOk(kind, atom) && ItemsOk(kind, rest) && (q.Some? ==> IsQuantifier(q.value))
    requires tail == (if q.Some? then [q.value] else "") + Print(rest)
    ensures ItemsOk(kind, items) && items != [] && Print(items) == PrintAtom(atom) + tail
  {
    items := [Item(atom, q)] + rest;
    assert items[1..] == rest;
    assert PrintItem(items[0]) + Print(rest) == PrintAtom(atom) + tail;
  }

  lemma {:induction false} FirstBracket(chars: string, rest: string)
    requires forall i | 0 <= i < |chars| :: IsClassChar(chars[i])
    ensures IndexOf(chars + "]" + rest, ']') == Some(|chars|)
    decreases |chars|
  {
    var s := chars + "]" + rest;
    if chars != "" {
      assert s[0] == chars[0] && s[1..] == chars[1..] + "]" + rest;
      FirstBracket(chars[1..], rest);
    }
  }

  lemma AtomScans(atom: Atom, rest: string, kind: Kind, seen: Scanned)
    requires AtomOk(kind, atom)
    ensures Scan(PrintAtom(atom) + rest, kind, seen) <==> Scan(rest, kind, AtomSeen)
  {
    var s := PrintAtom(atom) + rest;
    match atom
    case Escape(c) => assert s[2..] == rest;
    case Class(chars) =>
      assert s[1..] == chars + "]" + rest;
      FirstBracket(chars, rest);
      assert s[1..][..|chars|] == chars && s[1..][|chars| + 1..] == rest;
    case Literal(c) => assert s[1..] == rest;
  }

  lemma {:induction false} ItemsScan(items: seq<Item>, kind: Kind, seen: Scanned)
    requires ItemsOk(kind, items) && (items != [] || !seen.Nothing?)
    ensures Scan(Print(items), kind, seen)
    decreases |items|
  {
    if items != [] {
      ItemsScan(items[1..], kind, if items[0].quantifier.Some? then QuantifierSeen else AtomSeen);
      ItemScans(items[0], Print(items[1..]), kind, seen);
    }
  }

  lemma ItemScans(item: Item, rest: string, kind: Kind, seen: Scanned)
    requires ItemOk(kind, item) && Scan(rest, kind, if item.quantifier.Some? then QuantifierSeen else AtomSeen)
    ensures Scan(PrintItem(item) + rest, kind, seen)
  {
    if item.quantifier.Some? {
      var after := [item.quantifier.value] + rest;
      assert PrintItem(item) + rest == PrintAtom(item.atom) + after;
      assert after[0] == item.quantifier.value && after[1..] == rest;
      AtomScans(item.atom, after, kind, seen);
    } else {
      assert PrintItem(item) + rest == PrintAtom(item.atom) + rest;
      AtomScans(item.atom, rest, kind, seen);
    }
  }

  lemma NoPercentInAtom(kind: Kind, atom: Atom)
    requires AtomOk(kind, atom)
    ensures '%' !in PrintAtom(atom)
  {
  }

  lemma {:induction false} NoPercent(items: seq<Item>, kind: Kind)
    requires ItemsOk(kind, items)
    ensures '%' !in Print(items)
  {
    if items != [] {
      NoPercentInAtom(kind, items[0].atom);
      NoPercent(items[1..], kind);
    }
  }

  /** The scan accepts exactly the grammar: an anchored, nonempty sequence of atoms, each with at most one
      quantifier, within the length bounds. */
  lemma AcceptsIff(kind: Kind, value: string)
    ensures Accepts(kind, value) <==> InGrammar(kind, value)
  {
    if Accepts(kind, value) { AcceptedParses(kind, value); }
    if InGrammar(kind, value) {
      var items :| items != [] && ItemsOk(kind, items) && value == "^" + Print(items) + "$";
      assert value[1..|value| - 1] == Print(items);
      ItemsScan(items, kind, Nothing);
      NoPercent(items, kind);
    }
  }

  lemma AcceptedParses(kind: Kind, value: string)
    requires Accepts(kind, value)
    ensures InGrammar(kind, value)
  {
    var _, items := Parsed(value[1..|value| - 1], kind, Nothing);
    assert value == "^" + value[1..|value| - 1] + "$";
    assert "" + Print(items) == Print(items);
  }

  // ---------- what no accepted expression contains ----------

  predicate IsGrouping(c: char) { c == '(' || c == ')' || c == '|' || c == '{' || c == '}' }

  // No character of the text groups or alternates, and no quantifier follows another or comes first.
  predicate Linear(s: string) {
    && (forall i | 0 <= i < |s| :: !IsGrouping(s[i]))
    && (forall i | 0 <= i < |s| - 1 :: !(IsQuantifier(s[i]) && IsQuantifier(s[i + 1])))
    && (s != "" ==> !IsQuantifier(s[0]))
  }

  lemma AtomIsLinear(kind: Kind, atom: Atom)
    requires AtomOk(kind, atom)
    ensures PrintAtom(atom) != "" && Linear(PrintAtom(atom))
            && forall i | 0 <= i < |PrintAtom(atom)| :: !IsQuantifier(PrintAtom(atom)[i])
  {
  }

  lemma ItemIsLinear(kind: Kind, item: Item)
    requires ItemOk(kind, item)
    ensures PrintItem(item) != "" && Linear(PrintItem(item))
  {
    AtomIsLinear(kind, item.atom);
  }

  lemma LinearJoins(a: string, b: string)
    requires Linear(a) && Linear(b) && a != ""
    ensures Linear(a + b)
  {
    forall i | 0 <= i < |a + b| - 1 ensures !(IsQuantifier((a + b)[i]) && IsQuantifier((a + b)[i + 1])) {
      if i + 1 < |a| {
        assert (a + b)[i] == a[i] && (a + b)[i + 1] == a[i + 1];
      } else if i + 1 == |a| {
        assert (a + b)[i + 1] == b[0];
      } else {
        assert (a + b)[i] == b[i - |a|] && (a + b)[i + 1] == b[i - |a| + 1];
      }
    }
  }

  lemma {:induction false} ItemsAreLinear(kind: Kind, items: seq<Item>)
    requires ItemsOk(kind, items)
    ensures Linear(Print(items))
  {
    if items != [] {
      ItemIsLinear(kind, items[0]);
      ItemsAreLinear(kind, items[1..]);
      LinearJoins(PrintItem(items[0]), Print(items[1..]));
    }
  }

  /** No accepted expression contains a group, an alternation, a counted repetition or a stacked quantifier. */
  lemma AcceptedIsLinear(kind: Kind, value: string)
    requires Accepts(kind, value)
    ensures Linear(value)
  {
    AcceptsIff(kind, value);
    var items :| items != [] && ItemsOk(kind, items) && value == "^" + Print(items) + "$";
    ItemsAreLinear(kind, items);
    AnchorsAreLinear(Print(items));
  }

  lemma AnchorsAreLinear(s: string)
    requires Linear(s)
    ensures Linear("^" + s + "$")
  {
    assert Linear("^") && Linear("$");
    LinearJoins("^", s);
    LinearJoins("^" + s, "$");
  }

  // The text after an item starts with the next item, so not with a quantifier.
  lemma PrintStartsWithAtom(kind: Kind, items: seq<Item>)
    requires ItemsOk(kind, items)
    ensures Print(items) != "" ==> items != [] && !IsQuantifier(Print(items)[0])
  {
    if items != [] { ItemIsLinear(kind, items[0]); }
  }

  // ---------- what a match covers ----------

  // A compiled expression: the anchors are nodes that match no text, at the ends of the input only.
  datatype Node = StartAnchor | EndAnchor | Repeat(item: Item)

  // The segment is as many characters as the quantifier allows, each one the atom matches; `one` says
  // which characters that are.
  predicate Spans(one: (Atom, char) -> bool, item: Item, s: string) {
    && (forall i | 0 <= i < |s| :: one(item.atom, s[i]))
    && match item.quantifier
       case None => |s| == 1
       case Some(q) => (q == '?' ==> |s| <= 1) && (q == '+' ==> |s| >= 1)
  }

  // The nodes match the input from position i to position j.
  predicate MatchesAt(one: (Atom, char) -> bool, nodes: seq<Node>, input: string, i: nat, j: nat)
    requires i <= |input| && j <= |input|
    decreases |nodes|
  {
    if nodes == [] then i == j
    else
      match nodes[0]
      case StartAnchor => i == 0 && MatchesAt(one, nodes[1..], input, i, j)
      case EndAnchor => i == |input| && MatchesAt(one, nodes[1..], input, i, j)
      case Repeat(item) =>
        exists k | i <= k <= |input| :: Spans(one, item, input[i..k]) && MatchesAt(one, nodes[1..], input, k, j)
  }

  // The items span the rest of the input from position i, in order and without gaps.
  predicate SpansFrom(one: (Atom, char) -> bool, items: seq<Item>, input: string, i: nat)
    requires i <= |input|
    decreases |items|
  {
    if items == [] then i == |input|
    else exists k | i <= k <= |input| :: Spans(one, items[0], input[i..k]) && SpansFrom(one, items[1..], input, k)
  }

  function Tail(items: seq<Item>): seq<Node> { Map(items, (item: Item) => Repeat(item)) + [EndAnchor] }

  function Compiled(items: seq<Item>): seq<Node> { [StartAnchor] + Tail(items) }

  lemma {:induction false} TailMatchesToEnd(one: (Atom, char) -> bool, items: seq<Item>, input: string, i: nat, j: nat)
    requires i <= |input| && j <= |input|
    ensures MatchesAt(one, Tail(items), input, i, j) <==> j == |input| && SpansFrom(one, items, input, i)
    decreases |items|
  {
    var nodes := Tail(items);
    if items == [] {
      assert nodes == [EndAnchor] && nodes[1..] == [];
    } else {
      assert nodes[0] == Repeat(items[0]) && nodes[1..] == Tail(items[1..]);
      forall k | i <= k <= |input|
        ensures MatchesAt(one, nodes[1..], input, k, j) <==> j == |input| && SpansFrom(one, items[1..], input, k)
      {
        TailMatchesToEnd(one, items[1..], input, k, j);
      }
    }
  }

  // ---------- the text read as an expression ----------

  // The atom a text begins with, and its length.
  function ReadAtom(s: string): Option<(Atom, nat)>
    requires s != ""
  {
    if s[0] == '\\' then if |s| >= 2 then Some((Escape(s[1]), 2)) else None
    else if s[0] == '[' then
      var end := IndexOf(s[1..], ']');
      if end.None? then None else Some((Class(s[1..][..end.value]), end.value + 2))
    else if IsQuantifier(s[0]) then None
    else Some((Literal(s[0]), 1))
  }

  // Any text as a sequence of nodes, anchors wherever they stand.
  function Read(s: string): Option<seq<Node>>
    decreases |s|
  {
    if s == "" then Some([])
    else if s[0] == '^' then Before(StartAnchor, Read(s[1..]))
    else if s[0] == '$' then Before(EndAnchor, Read(s[1..]))
    else
      match ReadAtom(s)
      case None => None
      case Some((atom, n)) =>
        if n < |s| && IsQuantifier(s[n]) then Before(Repeat(Item(atom, Some(s[n]))), Read(s[n + 1..]))
        else if n <= |s| then Before(Repeat(Item(atom, None)), Read(s[n..]))
        else None
  }

  function Before(first: Node, rest: Option<seq<Node>>): Option<seq<Node>> {
    if rest.None? then None else Some([first] + rest.value)
  }

  lemma AtomIsRead(kind: Kind, atom: Atom, rest: string)
    requires AtomOk(kind, atom)
    ensures var s := PrintAtom(atom) + rest;
            s != "" && s[0] != '^' && s[0] != '$' && ReadAtom(s) == Some((atom, |PrintAtom(atom)|))
  {
    var s := PrintAtom(atom) + rest;
    if atom.Class? {
      assert s[1..] == atom.chars + "]" + rest;
      FirstBracket(atom.chars, rest);
      assert s[1..][..|atom.chars|] == atom.chars;
    }
  }

  lemma ItemIsRead(kind: Kind, item: Item, rest: string)
    requires ItemOk(kind, item) && (rest != "" ==> !IsQuantifier(rest[0]))
    ensures Read(PrintItem(item) + rest) == Before(Repeat(item), Read(rest))
  {
    if item.quantifier.Some? { QuantifiedIsRead(kind, item, rest); } else { PlainIsRead(kind, item, rest); }
  }

  lemma QuantifiedIsRead(kind: Kind, item: Item, rest: string)
    requires ItemOk(kind, item) && item.quantifier.Some?
    ensures Read(PrintItem(item) + rest) == Before(Repeat(item), Read(rest))
  {
    var s, n := PrintItem(item) + rest, |PrintAtom(item.atom)|;
    AtomIsRead(kind, item.atom, [item.quantifier.value] + rest);
    assert s == PrintAtom(item.atom) + ([item.quantifier.value] + rest);
    assert s[n] == item.quantifier.value && s[n + 1..] == rest;
  }

  lemma PlainIsRead(kind: Kind, item: Item, rest: string)
    requires ItemOk(kind, item) && item.quantifier.None? && (rest != "" ==> !IsQuantifier(rest[0]))
    ensures Read(PrintItem(item) + rest) == Before(Repeat(item), Read(rest))
  {
    var s, n := PrintItem(item) + rest, |PrintAtom(item.atom)|;
    AtomIsRead(kind, item.atom, rest);
    assert s == PrintAtom(item.atom) + rest;
    assert s[n..] == rest;
  }

  lemma {:induction false} ItemsAreRead(kind: Kind, items: seq<Item>)
    requires ItemsOk(kind, items)
    ensures Read(Print(items) + "$") == Some(Tail(items))
    decreases |items|
  {
    if items == [] {
      assert Print(items) + "$" == "$" && "$"[1..] == "";
      assert Read("") == Some([]) && [EndAnchor] + [] == [EndAnchor];
      assert Tail(items) == [EndAnchor];
    } else {
      var rest := Print(items[1..]) + "$";
      PrintStartsWithAtom(kind, items[1..]);
      assert Print(items) + "$" == PrintItem(items[0]) + rest;
      ItemIsRead(kind, items[0], rest);
      ItemsAreRead(kind, items[1..]);
      assert Tail(items) == [Repeat(items[0])] + Tail(items[1..]);
    }
  }

  /** An accepted expression is the text of one sequence of items only. */
  lemma OneReading(kind: Kind, a: seq<Item>, b: seq<Item>)
    requires ItemsOk(kind, a) && ItemsOk(kind, b) && Print(a) == Print(b)
    ensures a == b
  {
    ItemsAreRead(kind, a);
    ItemsAreRead(kind, b);
    TailIsInjective(a, b);
  }

  lemma TailIsInjective(a: seq<Item>, b: seq<Item>)
    requires Tail(a) == Tail(b)
    ensures a == b
  {
    assert |Tail(a)| == |a| + 1 && |Tail(b)| == |b| + 1;
    forall i | 0 <= i < |a| ensures a[i] == b[i] { assert Tail(a)[i] == Repeat(a[i]) && Tail(b)[i] == Repeat(b[i]); }
  }

  /** Read as an expression, an accepted text has its anchors at its two ends and nowhere else: every match
      of it, wherever a search may try to start it, covers the whole input. */
  lemma AcceptedCoversInput(kind: Kind, value: string, one: (Atom, char) -> bool, input: string)
    requires Accepts(kind, value)
    ensures Read(value).Some?
    ensures exists items ::
            ItemsOk(kind, items) && Read(value) == Some(Compiled(items)) && value == "^" + Print(items) + "$"
    ensures forall i: nat, j: nat | i <= |input| && j <= |input| && MatchesAt(one, Read(value).value, input, i, j) ::
              i == 0 && j == |input|
  {
    AcceptsIff(kind, value);
    var items :| items != [] && ItemsOk(kind, items) && value == "^" + Print(items) + "$";
    assert value[1..] == Print(items) + "$";
    ItemsAreRead(kind, items);
    forall i: nat, j: nat | i <= |input| && j <= |input| && MatchesAt(one, Compiled(items), input, i, j)
      ensures i == 0 && j == |input|
    {
      assert Compiled(items)[1..] == Tail(items);
      TailMatchesToEnd(one, items, input, i, j);
    }
  }
}
