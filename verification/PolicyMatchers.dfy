/** Host and path matchers of a policy rule. Regular expressions and host normalisation are given. */
module PolicyMatchers {
  import opened Lists

  datatype HostMatcher = ExactHost(value: string) | SuffixHost(value: string) | RegexHost(value: string)
  datatype PathMatcher = ExactPath(value: string) | PrefixPath(value: string) | RegexPath(value: string)

  // What the platform decides: upper case, canonical hosts, and whether a pattern matches a text.
  datatype Platform = Platform(upper: string -> string, canonicalHost: string -> string,
                               regex: (string, string) -> bool)

  predicate StartsWith(s: string, prefix: string) { |prefix| <= |s| && s[..|prefix|] == prefix }

  predicate EndsWith(s: string, suffix: string) { |suffix| <= |s| && s[|s| - |suffix|..] == suffix }

  predicate MatchesHost(p: Platform, matcher: HostMatcher, host: string) {
    var normalized := p.canonicalHost(host);
    match matcher
    case ExactHost(value) => normalized == value
    case SuffixHost(value) => normalized == value || EndsWith(normalized, "." + value)
    case RegexHost(value) => p.regex(value, normalized)
  }

  predicate MatchesPath(p: Platform, matcher: PathMatcher, pathname: string) {
    match matcher
    case ExactPath(value) => pathname == value
    case PrefixPath(value) => value == "/" || pathname == value || StartsWith(pathname, value + "/")
    case RegexPath(value) => p.regex(value, pathname)
  }

  predicate IsListPrefix<T(==)>(a: seq<T>, b: seq<T>) { |a| <= |b| && b[..|a|] == a }

  predicate IsListSuffix<T(==)>(a: seq<T>, b: seq<T>) { |a| <= |b| && b[|b| - |a|..] == a }

  // ---------- whole segments ----------

  lemma TextPrefixIsListPrefix(value: string, text: string, separator: char)
    requires text == value || StartsWith(text, value + [separator])
    ensures IsListPrefix(Split(value, separator), Split(text, separator))
  {
    if text != value {
      var rest := text[|value| + 1..];
      assert text == value + [separator] + rest;
      SplitJoined(value, rest, separator);
    }
  }

  lemma ListPrefixIsTextPrefix(value: string, text: string, separator: char)
    requires IsListPrefix(Split(value, separator), Split(text, separator))
    ensures text == value || StartsWith(text, value + [separator])
  {
    var v, q := Split(value, separator), Split(text, separator);
    var rest := q[|v|..];
    assert q == v + rest;
    JoinSplit(value, separator);
    JoinSplit(text, separator);
    if rest == [] {
      assert q == v;
    } else {
      JoinAppend(v, rest, [separator]);
      var after := Join(rest, [separator]);
      assert text == value + [separator] + after;
      assert text[..|value| + 1] == value + [separator];
    }
  }

  lemma TextSuffixIsListSuffix(value: string, text: string, separator: char)
    requires text == value || EndsWith(text, [separator] + value)
    ensures IsListSuffix(Split(value, separator), Split(text, separator))
  {
    if text != value {
      var front := text[..|text| - |value| - 1];
      assert text == front + [separator] + value;
      SplitJoined(front, value, separator);
    }
  }

  lemma ListSuffixIsTextSuffix(value: string, text: string, separator: char)
    requires IsListSuffix(Split(value, separator), Split(text, separator))
    ensures text == value || EndsWith(text, [separator] + value)
  {
    var v, h := Split(value, separator), Split(text, separator);
    var front := h[..|h| - |v|];
    assert h == front + v;
    JoinSplit(value, separator);
    JoinSplit(text, separator);
    if front == [] { assert h == v; } else { JoinedSuffix(front, v, separator); }
  }

  lemma JoinedSuffix(front: seq<string>, back: seq<string>, separator: char)
    requires front != [] && back != []
    ensures EndsWith(Join(front + back, [separator]), [separator] + Join(back, [separator]))
  {
    JoinAppend(front, back, [separator]);
    var before, after := Join(front, [separator]), [separator] + Join(back, [separator]);
    assert Join(front + back, [separator]) == before + after;
    Tail(before, after);
  }

  lemma Tail(front: string, back: string)
    ensures EndsWith(front + back, back)
  {
  }

  /** A prefix matcher other than "/" compares whole segments: it matches exactly the paths whose
      segments begin with its own. */
  lemma PrefixMatchesIffSegments(p: Platform, value: string, pathname: string)
    requires value != "/"
    ensures MatchesPath(p, PrefixPath(value), pathname) <==> IsListPrefix(Split(value, '/'), Split(pathname, '/'))
  {
    if MatchesPath(p, PrefixPath(value), pathname) { TextPrefixIsListPrefix(value, pathname, '/'); }
    if IsListPrefix(Split(value, '/'), Split(pathname, '/')) { ListPrefixIsTextPrefix(value, pathname, '/'); }
  }

  /** A suffix matcher compares whole labels: it matches exactly the hosts whose labels end with its own. */
  lemma SuffixMatchesIffLabels(p: Platform, value: string, host: string)
    ensures MatchesHost(p, SuffixHost(value), host) <==>
              IsListSuffix(Split(value, '.'), Split(p.canonicalHost(host), '.'))
  {
    var normalized := p.canonicalHost(host);
    if MatchesHost(p, SuffixHost(value), host) { TextSuffixIsListSuffix(value, normalized, '.'); }
    if IsListSuffix(Split(value, '.'), Split(normalized, '.')) { ListSuffixIsTextSuffix(value, normalized, '.'); }
  }

  // ---------- percent encoding ----------

  predicate IsUpperHex(c: char) { '0' <= c <= '9' || 'A' <= c <= 'F' }

  function UpperHexValue(c: char): nat
    requires IsUpperHex(c)
  {
    if '0' <= c <= '9' then c as nat - 48 else c as nat - 55
  }

  // Bytes that may stand for themselves, or would mean a separator, an end or another escape.
  predicate MustNotBeEscaped(byte: nat) {
    || 'A' as nat <= byte <= 'Z' as nat || 'a' as nat <= byte <= 'z' as nat || '0' as nat <= byte <= '9' as nat
    || byte == 0x2E || byte == 0x5F || byte == 0x7E || byte == 0x2D
    || byte == 0x2F || byte == 0x5C || byte == 0x00 || byte == 0x25
  }

  // Two upper-case digits follow, for a byte that has to be escaped.
  predicate EscapeAt(s: string, i: nat) {
    && i + 2 < |s| && IsUpperHex(s[i + 1]) && IsUpperHex(s[i + 2])
    && !MustNotBeEscaped(16 * UpperHexValue(s[i + 1]) + UpperHexValue(s[i + 2]))
  }

  /** Skipping over each escape misses none: a path is accepted exactly when every percent sign in it
      begins an escape of a byte that has no other spelling. */
  method AssertUnambiguousPercentEncoding(value: string) returns (ok: bool)
    ensures ok <==> forall i: nat | i < |value| && value[i] == '%' :: EscapeAt(value, i)
  {
    var index: nat := 0;
    while index < |value|
      invariant index <= |value| && forall i: nat | i < index && value[i] == '%' :: EscapeAt(value, i)
    {
      if value[index] != '%' {
        index := index + 1;
        continue;
      }
      if !EscapeAt(value, index) { return false; }
      index := index + 3;
    }
    ok := true;
  }
}
