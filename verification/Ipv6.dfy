/** Reading the eight words of an IPv6 address from its full form, from a form with a run of zeros
    written as a double colon, and from a form ending in an IPv4 address (section 2.2 of RFC 4291). */
module Ipv6 {
  import opened Common
  import opened Lists

  // ---------- digits ----------

  function HexDigit(d: nat): char
    requires d < 16
  {
    if d < 10 then (d + 48) as char else (d + 87) as char
  }

  function HexValue(c: char): Option<nat> {
    if '0' <= c <= '9' then Some(c as nat - 48)
    else if 'a' <= c <= 'f' then Some(c as nat - 87)
    else if 'A' <= c <= 'F' then Some(c as nat - 55)
    else None
  }

  function Hex(n: nat): string { if n < 16 then [HexDigit(n)] else Hex(n / 16) + [HexDigit(n % 16)] }

  function ParseHex(s: string): Option<nat> {
    if s == "" then Some(0)
    else
      var n := |s| - 1;
      var front, last := ParseHex(s[..n]), HexValue(s[n]);
      if front.None? || last.None? then None else Some(16 * front.value + last.value)
  }

  // A word: one to four hexadecimal digits.
  function ParseWord(s: string): Option<nat> { if 1 <= |s| <= 4 then ParseHex(s) else None }

  predicate IsDigit(c: char) { '0' <= c <= '9' }

  predicate Digits(s: string) { s != "" && forall i | 0 <= i < |s| :: IsDigit(s[i]) }

  function Decimal(n: nat): string { if n < 10 then [(n + 48) as char] else Decimal(n / 10) + [(n % 10 + 48) as char] }

  function ParseDecimal(s: string): nat
    requires forall i | 0 <= i < |s| :: IsDigit(s[i])
  {
    if s == "" then 0
    else
      var n := |s| - 1;
      assert IsDigit(s[n]);
      10 * ParseDecimal(s[..n]) + (s[n] as nat - 48)
  }

  // Up to three digits without leading zeros, and at most 255.
  function ParseByte(s: string): Option<nat> {
    if !Digits(s) || |s| > 3 || (|s| > 1 && s[0] == '0') || ParseDecimal(s) > 255 then None else Some(ParseDecimal(s))
  }

  function ParseAll(parts: seq<string>, parse: string -> Option<nat>): Option<seq<nat>> {
    if parts == [] then Some([])
    else
      var first, rest := parse(parts[0]), ParseAll(parts[1..], parse);
      if first.None? || rest.None? then None else Some([first.value] + rest.value)
  }

  // ---------- the reader ----------

  // The text around the first double colon.
  function Halves(s: string): seq<string>
    decreases |s|
  {
    if |s| < 2 then [s]
    else if s[0] == ':' && s[1] == ':' then [""] + Halves(s[2..])
    else
      var rest := Halves(s[1..]);
      if rest == [] then [s] else [[s[0]] + rest[0]] + rest[1..]
  }

  function LastColon(s: string): Option<nat> {
    if s == "" then None else if s[|s| - 1] == ':' then Some(|s| - 1) else LastColon(s[..|s| - 1])
  }

  // Four groups of digits between dots, at the end of the text.
  predicate LooksIpv4(s: string) {
    var parts := Split(s, '.');
    |parts| == 4 && forall i | 0 <= i < 4 :: Digits(parts[i])
  }

  function Tail(s: string): string {
    var i := LastColon(s);
    if i.None? || i.value + 1 > |s| then s else s[i.value + 1..]
  }

  function Head(s: string): string {
    var i := LastColon(s);
    if i.None? || i.value > |s| then "" else s[..i.value]
  }

  // An embedded IPv4 address is rewritten as two words.
  function Expanded(s: string): Option<string> {
    if !LooksIpv4(Tail(s)) then Some(s)
    else
      var bytes := ParseAll(Split(Tail(s), '.'), ParseByte);
      if bytes.None? || |bytes.value| != 4 then None
      else
        var b := bytes.value;
        Some(Head(s) + ":" + Hex(256 * b[0] + b[1]) + ":" + Hex(256 * b[2] + b[3]))
  }

  function Pieces(s: string): seq<string> { if s == "" then [] else Split(s, ':') }

  function Zeros(n: nat): seq<string> { if n == 0 then [] else ["0"] + Zeros(n - 1) }

  function WordsOf(value: string): Option<seq<nat>> {
    var halves := Halves(value);
    if halves == [] || |halves| > 2 then None
    else
      var left, right := Pieces(halves[0]), if |halves| == 1 then [] else Pieces(halves[1]);
      var missing := 8 - |left| - |right|;
      if (|halves| == 1 && missing != 0) || (|halves| == 2 && missing < 1) then None
      else ParseAll(left + Zeros(missing) + right, ParseWord)
  }

  function Ipv6Words(input: string): Option<seq<nat>> {
    var value := Expanded(input);
    if value.None? then None else WordsOf(value.value)
  }

  // ---------- printing ----------

  predicate Words(w: seq<nat>) { forall i | 0 <= i < |w| :: w[i] < 0x10000 }

  function HexWords(w: seq<nat>): seq<string> { Map(w, (n: nat) => Hex(n)) }

  function Colons(w: seq<nat>): string { Join(HexWords(w), ":") }

  function Full(w: seq<nat>): string { Colons(w) }

  // The words before and after a run of zeros.
  function Compressed(left: seq<nat>, right: seq<nat>): string { Colons(left) + "::" + Colons(right) }

  function DottedText(a: string, b: string, c: string, d: string): string { a + "." + (b + "." + (c + "." + d)) }

  function Dotted(high: nat, low: nat): string {
    DottedText(Decimal(high / 256), Decimal(high % 256), Decimal(low / 256), Decimal(low % 256))
  }

  function ZeroWords(n: nat): (w: seq<nat>)
    ensures |w| == n && forall i | 0 <= i < n :: w[i] == 0
  {
    seq(n, i => 0)
  }

  // ---------- hexadecimal words ----------

  lemma HexDigitValue(d: nat)
    requires d < 16
    ensures HexValue(HexDigit(d)) == Some(d) && HexDigit(d) != ':' && HexDigit(d) != '.'
  {
  }

  lemma {:induction false} HexParses(n: nat)
    ensures ParseHex(Hex(n)) == Some(n) && Hex(n) != "" && ':' !in Hex(n) && '.' !in Hex(n)
  {
    HexDigitValue(n % 16);
    var h := Hex(n);
    if n < 16 {
      assert h[..0] == "";
    } else {
      HexParses(n / 16);
      assert h[..|h| - 1] == Hex(n / 16);
    }
  }

  lemma HexIsWord(n: nat)
    requires n < 0x10000
    ensures 1 <= |Hex(n)| <= 4 && ParseWord(Hex(n)) == Some(n)
  {
    HexParses(n);
    assert Power(16, 4) == 0x10000 by { assert Power(16, 1) == 16 && Power(16, 2) == 256 && Power(16, 3) == 4096; }
    HexSize(n, 4);
  }

  function Power(base: nat, k: nat): nat { if k == 0 then 1 else base * Power(base, k - 1) }

  lemma {:induction false} HexSize(n: nat, k: nat)
    requires k >= 1 && n < Power(16, k)
    ensures 1 <= |Hex(n)| <= k
    decreases k
  {
    if n >= 16 { HexSize(n / 16, k - 1); }
  }

  lemma {:induction false} DecimalSize(n: nat, k: nat)
    requires k >= 1 && n < Power(10, k)
    ensures |Decimal(n)| <= k
    decreases k
  {
    if n >= 10 { DecimalSize(n / 10, k - 1); }
  }

  lemma {:induction false} WordsParse(w: seq<nat>)
    requires Words(w)
    ensures ParseAll(HexWords(w), ParseWord) == Some(w)
  {
    if w != [] {
      HexIsWord(w[0]);
      assert HexWords(w)[1..] == HexWords(w[1..]);
      WordsParse(w[1..]);
      assert w == [w[0]] + w[1..];
    }
  }

  lemma {:induction false} ZerosAreHex(n: nat)
    ensures Zeros(n) == HexWords(ZeroWords(n))
  {
    if n > 0 {
      ZerosAreHex(n - 1);
      assert Hex(0) == "0";
      assert ZeroWords(n)[1..] == ZeroWords(n - 1);
      assert HexWords(ZeroWords(n)) == ["0"] + HexWords(ZeroWords(n)[1..]);
    }
  }

  lemma HexWordsAppend(a: seq<nat>, b: seq<nat>)
    ensures HexWords(a + b) == HexWords(a) + HexWords(b)
  {
  }

  // ---------- colons ----------

  lemma {:induction false} NoSeparator(s: string, separator: char)
    requires separator !in s
    ensures Split(s, separator) == [s]
    decreases |s|
  {
    if s != "" {
      NoSeparator(s[1..], separator);
      assert s == [s[0]] + s[1..];
    }
  }

  lemma {:induction false} SplitsColons(w: seq<nat>)
    requires w != []
    ensures Split(Colons(w), ':') == HexWords(w)
  {
    var parts := HexWords(w);
    HexParses(w[0]);
    NoSeparator(parts[0], ':');
    assert parts[1..] == HexWords(w[1..]);
    if |w| > 1 {
      SplitsColons(w[1..]);
      SplitJoined(parts[0], Colons(w[1..]), ':');
      assert Colons(w) == parts[0] + [':'] + Colons(w[1..]);
      assert parts == [parts[0]] + parts[1..];
    } else {
      assert parts == [parts[0]];
    }
  }

  lemma {:induction false} ColonsNotEmpty(w: seq<nat>)
    ensures (Colons(w) == "") <==> w == []
    ensures w != [] ==> Colons(w)[0] != ':' && Colons(w)[|Colons(w)| - 1] != ':'
  {
    if w != [] {
      HexParses(w[0]);
      assert HexWords(w)[1..] == HexWords(w[1..]);
      ColonsNotEmpty(w[1..]);
    }
  }

  lemma PiecesOfColons(w: seq<nat>)
    ensures Pieces(Colons(w)) == HexWords(w)
  {
    ColonsNotEmpty(w);
    if w != [] { SplitsColons(w); }
  }

  // Text without a colon at its end or two in a row.
  predicate Single(s: string) {
    && (forall i | 0 <= i < |s| - 1 :: !(s[i] == ':' && s[i + 1] == ':'))
    && (s != "" ==> s[|s| - 1] != ':')
  }

  lemma {:induction false} ColonsAreSingle(w: seq<nat>)
    ensures Single(Colons(w))
  {
    if |w| == 1 {
      HexParses(w[0]);
      assert HexWords(w)[0] == Hex(w[0]);
    } else if |w| > 1 {
      HexParses(w[0]);
      var rest := Colons(w[1..]);
      assert HexWords(w)[1..] == HexWords(w[1..]);
      ColonsAreSingle(w[1..]);
      ColonsNotEmpty(w[1..]);
      var h := Hex(w[0]);
      assert Colons(w) == h + ":" + rest;
      forall i | 0 <= i < |Colons(w)| - 1 ensures !(Colons(w)[i] == ':' && Colons(w)[i + 1] == ':') {
        if i < |h| { assert Colons(w)[i] == h[i] && h[i] in h; }
        else if i > |h| { assert Colons(w)[i] == rest[i - |h| - 1]; }
      }
    }
  }

  lemma {:induction false} HalvesOfSingle(s: string)
    requires Single(s)
    ensures Halves(s) == [s]
    decreases |s|
  {
    if |s| >= 2 {
      assert !(s[0] == ':' && s[0 + 1] == ':');
      HalvesOfSingle(s[1..]);
      assert s == [s[0]] + s[1..];
    }
  }

  lemma {:induction false} HalvesAround(left: string, right: string)
    requires Single(left)
    ensures Halves(left + "::" + right) == [left] + Halves(right)
    decreases |left|
  {
    var s := left + "::" + right;
    if left == "" {
      assert s[2..] == right;
    } else {
      assert s[1..] == left[1..] + "::" + right;
      assert left[0] == ':' ==> |left| > 1 && left[0 + 1] != ':';
      assert Single(left[1..]);
      HalvesAround(left[1..], right);
      assert left == [left[0]] + left[1..];
    }
  }

  // ---------- round trips of the hexadecimal forms ----------

  lemma FullWords(w: seq<nat>)
    requires |w| == 8 && Words(w)
    ensures WordsOf(Full(w)) == Some(w)
  {
    ColonsAreSingle(w);
    HalvesOfSingle(Full(w));
    PiecesOfColons(w);
    assert HexWords(w) + Zeros(0) + [] == HexWords(w);
    WordsParse(w);
  }

  lemma CompressedWords(left: seq<nat>, right: seq<nat>)
    requires |left| + |right| < 8 && Words(left) && Words(right)
    ensures WordsOf(Compressed(left, right)) == Some(left + ZeroWords(8 - |left| - |right|) + right)
  {
    var missing := 8 - |left| - |right|;
    ColonsAreSingle(left);
    ColonsAreSingle(right);
    HalvesAround(Colons(left), Colons(right));
    HalvesOfSingle(Colons(right));
    assert Halves(Compressed(left, right)) == [Colons(left), Colons(right)];
    PiecesOfColons(left);
    PiecesOfColons(right);
    ZerosAreHex(missing);
    HexWordsAppend(left, ZeroWords(missing));
    HexWordsAppend(left + ZeroWords(missing), right);
    WordsParse(left + ZeroWords(missing) + right);
  }

  // ---------- embedded IPv4 ----------

  lemma {:induction false} DecimalParses(n: nat)
    ensures Digits(Decimal(n)) && ParseDecimal(Decimal(n)) == n && (n >= 1 ==> Decimal(n)[0] != '0')
  {
    var d := Decimal(n);
    if n < 10 {
      assert d[..0] == "";
    } else {
      DecimalParses(n / 10);
      assert d[..|d| - 1] == Decimal(n / 10);
    }
  }

  lemma DecimalIsByte(n: nat)
    requires n < 256
    ensures ParseByte(Decimal(n)) == Some(n)
  {
    DecimalParses(n);
    assert Power(10, 3) == 1000 by { assert Power(10, 1) == 10 && Power(10, 2) == 100; }
    DecimalSize(n, 3);
    assert |Decimal(n)| > 1 ==> n >= 10;
  }

  lemma DigitsArePlain(s: string)
    requires Digits(s)
    ensures '.' !in s && ':' !in s
  {
  }

  lemma SplitsFirst(a: string, rest: string)
    requires '.' !in a
    ensures Split(a + "." + rest, '.') == [a] + Split(rest, '.')
  {
    NoSeparator(a, '.');
    SplitJoined(a, rest, '.');
  }

  lemma DottedSplits(a: string, b: string, c: string, d: string)
    requires '.' !in a && '.' !in b && '.' !in c && '.' !in d
    ensures Split(DottedText(a, b, c, d), '.') == [a, b, c, d]
  {
    SplitsFirst(a, b + "." + (c + "." + d));
    SplitsFirst(b, c + "." + d);
    SplitsFirst(c, d);
    NoSeparator(d, '.');
  }

  lemma DottedHasNoColon(a: string, b: string, c: string, d: string)
    requires ':' !in a && ':' !in b && ':' !in c && ':' !in d
    ensures ':' !in DottedText(a, b, c, d)
  {
  }

  lemma DottedDigits(a: string, b: string, c: string, d: string)
    requires Digits(a) && Digits(b) && Digits(c) && Digits(d)
    ensures Split(DottedText(a, b, c, d), '.') == [a, b, c, d]
    ensures LooksIpv4(DottedText(a, b, c, d)) && ':' !in DottedText(a, b, c, d)
  {
    DigitsArePlain(a);
    DigitsArePlain(b);
    DigitsArePlain(c);
    DigitsArePlain(d);
    DottedSplits(a, b, c, d);
    DottedHasNoColon(a, b, c, d);
  }

  lemma DottedBytes(high: nat, low: nat)
    requires high < 0x10000 && low < 0x10000
    ensures LooksIpv4(Dotted(high, low)) && ':' !in Dotted(high, low)
    ensures ParseAll(Split(Dotted(high, low), '.'), ParseByte) == Some([high / 256, high % 256, low / 256, low % 256])
  {
    var a, b, c, d := Decimal(high / 256), Decimal(high % 256), Decimal(low / 256), Decimal(low % 256);
    assert high / 256 < 256 && low / 256 < 256;
    DecimalIsByte(high / 256);
    DecimalIsByte(high % 256);
    DecimalIsByte(low / 256);
    DecimalIsByte(low % 256);
    DottedDigits(a, b, c, d);
    AllParsed([a, b, c, d], [high / 256, high % 256, low / 256, low % 256], ParseByte);
  }

  lemma {:induction false} AllParsed(parts: seq<string>, values: seq<nat>, parse: string -> Option<nat>)
    requires |parts| == |values| && forall i | 0 <= i < |parts| :: parse(parts[i]) == Some(values[i])
    ensures ParseAll(parts, parse) == Some(values)
  {
    if parts != [] {
      AllParsed(parts[1..], values[1..], parse);
      assert values == [values[0]] + values[1..];
    }
  }

  lemma {:induction false} LastColonOf(front: string, tail: string)
    requires ':' !in tail
    ensures LastColon(front + ":" + tail) == Some(|front|)
    decreases |tail|
  {
    var s := front + ":" + tail;
    if tail != "" {
      var n := |tail| - 1;
      assert s[..|s| - 1] == front + ":" + tail[..n];
      assert s[|s| - 1] == tail[n];
      LastColonOf(front, tail[..n]);
    }
  }

  lemma HeadAndTail(front: string, tail: string)
    requires ':' !in tail
    ensures Head(front + ":" + tail) == front && Tail(front + ":" + tail) == tail
  {
    LastColonOf(front, tail);
  }

  lemma ExpandsBy(s: string, b: seq<nat>)
    requires LooksIpv4(Tail(s)) && |b| == 4 && ParseAll(Split(Tail(s), '.'), ParseByte) == Some(b)
    ensures Expanded(s) == Some(Head(s) + ":" + Hex(256 * b[0] + b[1]) + ":" + Hex(256 * b[2] + b[3]))
  {
  }

  // Everything before the colon in front of an embedded address is kept.
  lemma EmbeddedExpands(front: string, high: nat, low: nat)
    requires high < 0x10000 && low < 0x10000
    ensures Expanded(front + ":" + Dotted(high, low)) == Some(front + ":" + Hex(high) + ":" + Hex(low))
  {
    DottedBytes(high, low);
    HeadAndTail(front, Dotted(high, low));
    ExpandsBy(front + ":" + Dotted(high, low), [high / 256, high % 256, low / 256, low % 256]);
    assert 256 * (high / 256) + high % 256 == high && 256 * (low / 256) + low % 256 == low;
  }

  // A text of hexadecimal words and colons has no embedded address.
  lemma NoDotsExpandsToItself(s: string)
    requires '.' !in s
    ensures Expanded(s) == Some(s)
  {
    var t := Tail(s);
    assert '.' !in t;
    NoSeparator(t, '.');
  }

  lemma {:induction false} ColonsHaveNoDots(w: seq<nat>)
    ensures '.' !in Colons(w)
  {
    if w != [] {
      HexParses(w[0]);
      assert HexWords(w)[1..] == HexWords(w[1..]);
      ColonsHaveNoDots(w[1..]);
    }
  }

  lemma ColonsOfMore(w: seq<nat>, high: nat, low: nat)
    requires w != []
    ensures Colons(w + [high, low]) == Colons(w) + ":" + Hex(high) + ":" + Hex(low)
  {
    HexWordsAppend(w, [high, low]);
    TwoColons(high, low);
    JoinAppend(HexWords(w), HexWords([high, low]), ":");
    RegroupWords(Colons(w), Hex(high), Hex(low));
  }

  lemma RegroupWords(x: string, h: string, l: string)
    ensures x + ":" + (h + ":" + l) == x + ":" + h + ":" + l
  {
  }

  lemma TwoColons(high: nat, low: nat)
    ensures Colons([high, low]) == Hex(high) + ":" + Hex(low)
  {
    var parts := [Hex(high), Hex(low)];
    assert HexWords([high, low]) == parts;
    assert parts[1..] == [Hex(low)];
    assert Join([Hex(low)], ":") == Hex(low);
    assert Join(parts, ":") == parts[0] + ":" + Join(parts[1..], ":");
  }

  lemma Regroup(x: string, y: string, h: string, l: string)
    ensures x + y + ":" + h + ":" + l == x + (y + ":" + h + ":" + l)
  {
  }

  lemma RegroupColons(x: string, h: string, l: string)
    ensures x + ":" + ":" + h + ":" + l == x + "::" + (h + ":" + l)
  {
  }

  lemma DoubleColon(x: string, y: string)
    ensures x + "::" + y == x + ":" + ":" + y
  {
  }

  // ---------- the three forms ----------

  /** Eight words printed in full are read back. */
  lemma FullRoundTrip(w: seq<nat>)
    requires |w| == 8 && Words(w)
    ensures Ipv6Words(Full(w)) == Some(w)
  {
    ColonsHaveNoDots(w);
    NoDotsExpandsToItself(Full(w));
    FullWords(w);
  }

  /** Any nonempty run of zero words may be written as a double colon. */
  lemma CompressedRoundTrip(left: seq<nat>, right: seq<nat>)
    requires |left| + |right| < 8 && Words(left) && Words(right)
    ensures Ipv6Words(Compressed(left, right)) == Some(left + ZeroWords(8 - |left| - |right|) + right)
  {
    ColonsHaveNoDots(left);
    ColonsHaveNoDots(right);
    NoDotsExpandsToItself(Compressed(left, right));
    CompressedWords(left, right);
  }

  /** The last two words may be written as an IPv4 address. */
  lemma EmbeddedRoundTrip(w: seq<nat>, high: nat, low: nat)
    requires |w| == 6 && Words(w) && high < 0x10000 && low < 0x10000
    ensures Ipv6Words(Colons(w) + ":" + Dotted(high, low)) == Some(w + [high, low])
  {
    EmbeddedExpands(Colons(w), high, low);
    ColonsOfMore(w, high, low);
    FullWords(w + [high, low]);
  }

  lemma CompressedEmbeddedExpands(left: seq<nat>, right: seq<nat>, high: nat, low: nat)
    requires right != [] && high < 0x10000 && low < 0x10000
    ensures Expanded(Compressed(left, right) + ":" + Dotted(high, low)) == Some(Compressed(left, right + [high, low]))
  {
    EmbeddedExpands(Compressed(left, right), high, low);
    ColonsOfMore(right, high, low);
    Regroup(Colons(left) + "::", Colons(right), Hex(high), Hex(low));
  }

  lemma MappedExpands(left: seq<nat>, high: nat, low: nat)
    requires high < 0x10000 && low < 0x10000
    ensures Expanded(Colons(left) + "::" + Dotted(high, low)) == Some(Compressed(left, [high, low]))
  {
    EmbeddedExpands(Colons(left) + ":", high, low);
    DoubleColon(Colons(left), Dotted(high, low));
    TwoColons(high, low);
    RegroupColons(Colons(left), Hex(high), Hex(low));
  }

  lemma ByExpansion(input: string, value: string, w: seq<nat>)
    requires Expanded(input) == Some(value) && WordsOf(value) == Some(w)
    ensures Ipv6Words(input) == Some(w)
  {
  }

  lemma CompressedMore(left: seq<nat>, right: seq<nat>, high: nat, low: nat)
    requires |left| + |right| < 6 && Words(left) && Words(right) && high < 0x10000 && low < 0x10000
    ensures WordsOf(Compressed(left, right + [high, low]))
            == Some(left + ZeroWords(6 - |left| - |right|) + (right + [high, low]))
  {
    var tail := right + [high, low];
    assert Words(tail) && |tail| == |right| + 2;
    CompressedWords(left, tail);
  }

  /** Also after a double colon. */
  lemma CompressedEmbeddedRoundTrip(left: seq<nat>, right: seq<nat>, high: nat, low: nat)
    requires |left| + |right| < 6 && right != [] && Words(left) && Words(right) && high < 0x10000 && low < 0x10000
    ensures Ipv6Words(Compressed(left, right) + ":" + Dotted(high, low)) ==
      Some(left + ZeroWords(6 - |left| - |right|) + (right + [high, low]))
  {
    CompressedEmbeddedExpands(left, right, high, low);
    CompressedMore(left, right, high, low);
    ByExpansion(Compressed(left, right) + ":" + Dotted(high, low), Compressed(left, right + [high, low]),
                left + ZeroWords(6 - |left| - |right|) + (right + [high, low]));
  }

  /** And directly after it, as in a mapped address. */
  lemma MappedRoundTrip(left: seq<nat>, high: nat, low: nat)
    requires |left| < 6 && Words(left) && high < 0x10000 && low < 0x10000
    ensures Ipv6Words(Colons(left) + "::" + Dotted(high, low)) == Some(left + ZeroWords(6 - |left|) + [high, low])
  {
    MappedExpands(left, high, low);
    CompressedPair(left, high, low);
    ByExpansion(Colons(left) + "::" + Dotted(high, low), Compressed(left, [high, low]),
                left + ZeroWords(6 - |left|) + [high, low]);
  }

  lemma CompressedPair(left: seq<nat>, high: nat, low: nat)
    requires |left| < 6 && Words(left) && high < 0x10000 && low < 0x10000
    ensures WordsOf(Compressed(left, [high, low])) == Some(left + ZeroWords(6 - |left|) + [high, low])
  {
    CompressedWords(left, [high, low]);
  }
}
