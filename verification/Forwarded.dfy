/** The Forwarded header: lists split at separators outside quoted strings (section 4 of RFC 7239). */
module Forwarded {
  import opened Common
  import opened Lists

  const QUOTE: char := '\"'
  const ESCAPE: char := '\\'

  predicate IsSpace(c: char) { c == ' ' || c == '\t' || c == '\n' || c == '\r' }

  function TrimLeft(s: string): string { if s != "" && IsSpace(s[0]) then TrimLeft(s[1..]) else s }

  function TrimRight(s: string): string { if s != "" && IsSpace(s[|s| - 1]) then TrimRight(s[..|s| - 1]) else s }

  function Trim(s: string): string { TrimRight(TrimLeft(s)) }

  // ---------- splitting ----------

  function Prepend(parts: seq<string>, rest: Option<seq<string>>): Option<seq<string>> {
    if rest.None? then None else Some(parts + rest.value)
  }

  // The parts of the text still to read, the first of which begins with what is read already.
  function Parts(text: string, separator: char, quoted: bool, escaped: bool, read: string): Option<seq<string>>
    decreases |text|
  {
    if text == "" then if quoted || escaped || Trim(read) == "" then None else Some([Trim(read)])
    else
      var c, rest := text[0], text[1..];
      if escaped then Parts(rest, separator, quoted, false, read + [c])
      else if quoted && c == ESCAPE then Parts(rest, separator, quoted, true, read + [c])
      else
        var inside := if c == QUOTE then !quoted else quoted;
        if !inside && c == separator then
          if Trim(read) == "" then None else Prepend([Trim(read)], Parts(rest, separator, false, false, ""))
        else Parts(rest, separator, inside, false, read + [c])
  }

  method SplitQuoted(value: string, separator: char) returns (result: Option<seq<string>>)
    ensures result == Parts(value, separator, false, false, "")
  {
    var parts: seq<string> := [];
    var quoted, escaped, start := false, false, 0;
    assert value[0..] == value;
    PrependNothing(Parts(value, separator, false, false, ""));
    for index := 0 to |value|
      invariant 0 <= start <= index
      invariant Parts(value, separator, false, false, "") ==
        Prepend(parts, Parts(value[index..], separator, quoted, escaped, value[start..index]))
    {
      var c := value[index];
      assert value[index..][0] == c && value[index..][1..] == value[index + 1..];
      assert value[start..index + 1] == value[start..index] + [c];
      if escaped {
        escaped := false;
      } else if quoted && c == ESCAPE {
        escaped := true;
      } else {
        if c == QUOTE { quoted := !quoted; }
        if !quoted && c == separator {
          var part := Trim(value[start..index]);
          if part == "" { return None; }
          PrependTwice(parts, [part], Parts(value[index + 1..], separator, false, false, ""));
          parts := parts + [part];
          start := index + 1;
          assert value[start..index + 1] == "";
        }
      }
    }
    assert value[|value|..] == "" && value[start..|value|] == value[start..];
    if quoted || escaped { return None; }
    var last := Trim(value[start..]);
    if last == "" { return None; }
    result := Some(parts + [last]);
  }

  lemma PrependNothing(rest: Option<seq<string>>)
    ensures Prepend([], rest) == rest
  {
    if rest.Some? { assert [] + rest.value == rest.value; }
  }

  lemma PrependTwice(a: seq<string>, b: seq<string>, rest: Option<seq<string>>)
    ensures Prepend(a, Prepend(b, rest)) == Prepend(a + b, rest)
  {
    if rest.Some? { assert a + (b + rest.value) == a + b + rest.value; }
  }

  // ---------- quoting ----------

  // What a quoted string holds, up to its closing quote.
  function Unescaped(text: string): Option<string>
    decreases |text|
  {
    if text == "" then Some("")
    else if text[0] != ESCAPE then
      var rest := Unescaped(text[1..]);
      if rest.None? then None else Some([text[0]] + rest.value)
    else if |text| == 1 then Some([QUOTE])
    else
      var rest := Unescaped(text[2..]);
      if rest.None? then None else Some([text[1]] + rest.value)
  }

  // As the code reads it: a final escape takes the closing quote itself.
  function Unquoted(value: string): Option<string> {
    if value == "" || value[0] != QUOTE then if QUOTE in value then None else Some(value)
    else if value[|value| - 1] != QUOTE then None
    else if |value| == 1 then Some("")
    else Unescaped(value[1..|value| - 1])
  }

  method Unquote(value: string) returns (result: Option<string>)
    ensures result == Unquoted(value)
  {
    if value == "" || value[0] != QUOTE {
      return if QUOTE in value then None else Some(value);
    }
    if value[|value| - 1] != QUOTE { return None; }
    var text, index: nat := "", 1;
    if |value| == 1 { return Some(text); }
    ghost var inner := value[1..|value| - 1];
    AppendNothing(Unescaped(inner));
    while index < |value| - 1
      invariant 1 <= index <= |value|
      invariant index < |value| ==> Unescaped(inner) == Append(text, Unescaped(value[index..|value| - 1]))
      invariant index == |value| ==> Unescaped(inner) == Some(text)
      decreases |value| - index
    {
      var rest := value[index..|value| - 1];
      if value[index] == ESCAPE {
        assert |rest| > 1 ==> rest[2..] == value[index + 2..|value| - 1];
        index := index + 1;
        if |rest| > 1 { AppendOne(text, value[index], Unescaped(rest[2..])); }
        text := text + [value[index]];
      } else {
        assert rest[1..] == value[index + 1..|value| - 1];
        AppendOne(text, value[index], Unescaped(rest[1..]));
        text := text + [value[index]];
      }
      index := index + 1;
    }
    if index == |value| - 1 { assert value[index..|value| - 1] == "" && text + "" == text; }
    result := Some(text);
  }

  lemma AppendNothing(rest: Option<string>)
    ensures Append("", rest) == rest
  {
    if rest.Some? { assert "" + rest.value == rest.value; }
  }

  function Append(text: string, rest: Option<string>): Option<string> {
    if rest.None? then None else Some(text + rest.value)
  }

  lemma AppendOne(text: string, c: char, rest: Option<string>)
    ensures Append(text, if rest.None? then None else Some([c] + rest.value)) == Append(text + [c], rest)
  {
    if rest.Some? { assert text + ([c] + rest.value) == text + [c] + rest.value; }
  }

  // ---------- printing ----------

  function Escaped(s: string): string {
    if s == "" then "" else (if s[0] == QUOTE || s[0] == ESCAPE then [ESCAPE, s[0]] else [s[0]]) + Escaped(s[1..])
  }

  function Quoted(s: string): string { [QUOTE] + Escaped(s) + [QUOTE] }

  lemma {:induction false} UnescapedEscaped(s: string)
    ensures Unescaped(Escaped(s)) == Some(s)
  {
    if s != "" {
      UnescapedEscaped(s[1..]);
      var e := Escaped(s);
      if s[0] == QUOTE || s[0] == ESCAPE {
        assert e[0] == ESCAPE && e[1] == s[0] && e[2..] == Escaped(s[1..]);
      } else {
        assert e[0] == s[0] && e[1..] == Escaped(s[1..]);
      }
      assert s == [s[0]] + s[1..];
    }
  }

  lemma UnquotedQuoted(s: string)
    ensures Unquoted(Quoted(s)) == Some(s)
  {
    UnescapedEscaped(s);
    var q := Quoted(s);
    assert q[1..|q| - 1] == Escaped(s);
  }

  // Reading an escaped text inside quotes leaves the reader where it was.
  lemma {:induction false} ReadEscaped(s: string, rest: string, separator: char, read: string)
    ensures Parts(Escaped(s) + rest, separator, true, false, read)
            == Parts(rest, separator, true, false, read + Escaped(s))
    decreases |s|
  {
    if s == "" {
      assert Escaped(s) + rest == rest && read + Escaped(s) == read;
    } else {
      var text, tail := Escaped(s) + rest, Escaped(s[1..]) + rest;
      if s[0] == QUOTE || s[0] == ESCAPE {
        assert text[0] == ESCAPE && text[1..][0] == s[0] && text[1..][1..] == tail;
        assert read + [ESCAPE] + [s[0]] + Escaped(s[1..]) == read + Escaped(s);
        ReadEscaped(s[1..], rest, separator, read + [ESCAPE] + [s[0]]);
      } else {
        assert text[0] == s[0] && text[1..] == tail;
        assert read + [s[0]] + Escaped(s[1..]) == read + Escaped(s);
        ReadEscaped(s[1..], rest, separator, read + [s[0]]);
      }
    }
  }

  predicate Plain(s: string, separator: char) { separator !in s && QUOTE !in s }

  lemma {:induction false} ReadPlain(s: string, rest: string, separator: char, read: string)
    requires Plain(s, separator)
    ensures Parts(s + rest, separator, false, false, read) == Parts(rest, separator, false, false, read + s)
    decreases |s|
  {
    if s == "" {
      assert s + rest == rest && read + s == read;
    } else {
      assert (s + rest)[0] == s[0] && (s + rest)[1..] == s[1..] + rest;
      assert read + [s[0]] + s[1..] == read + s;
      ReadPlain(s[1..], rest, separator, read + [s[0]]);
    }
  }

  // A plain name and a quoted value, as in for="192.0.2.1".
  lemma ReadPart(name: string, s: string, rest: string, separator: char, read: string)
    requires Plain(name, separator) && separator != QUOTE
    ensures Parts(name + Quoted(s) + rest, separator, false, false, read)
            == Parts(rest, separator, false, false, read + (name + Quoted(s)))
  {
    var after := Quoted(s) + rest;
    assert name + Quoted(s) + rest == name + after;
    ReadPlain(name, after, separator, read);
    var inner := Escaped(s) + ([QUOTE] + rest);
    assert after[0] == QUOTE && after[1..] == inner;
    ReadEscaped(s, [QUOTE] + rest, separator, read + name + [QUOTE]);
    var closing := [QUOTE] + rest;
    assert closing[0] == QUOTE && closing[1..] == rest;
    assert read + name + [QUOTE] + Escaped(s) + [QUOTE] == read + (name + Quoted(s));
  }

  lemma TrimKeeps(s: string)
    requires s != "" && !IsSpace(s[0]) && !IsSpace(s[|s| - 1])
    ensures Trim(s) == s
  {
  }

  function Named(name: string, values: seq<string>): seq<string> { Map(values, (v: string) => name + Quoted(v)) }

  predicate NameOk(name: string, separator: char) { Plain(name, separator) && (name == "" || !IsSpace(name[0])) }

  lemma {:induction false} SplitsNamed(name: string, values: seq<string>, separator: char)
    requires values != [] && NameOk(name, separator) && separator != QUOTE
    ensures Parts(Join(Named(name, values), [separator]), separator, false, false, "") == Some(Named(name, values))
    decreases |values|
  {
    var parts, first := Named(name, values), name + Quoted(values[0]);
    assert parts[0] == first && parts[1..] == Named(name, values[1..]);
    assert Trim(first) == first by { TrimKeeps(first); }
    assert "" + first == first;
    if |values| == 1 {
      ReadPart(name, values[0], "", separator, "");
      assert first + "" == first && parts == [first];
    } else {
      var tail := Join(parts[1..], [separator]);
      var rest := [separator] + tail;
      assert Join(parts, [separator]) == first + rest;
      ReadPart(name, values[0], rest, separator, "");
      assert rest[0] == separator && rest[1..] == tail;
      SplitsNamed(name, values[1..], separator);
      assert parts == [first] + parts[1..];
    }
  }

  function UnquotedAll(parts: seq<string>): Option<seq<string>> {
    if parts == [] then Some([])
    else
      var first, rest := Unquoted(parts[0]), UnquotedAll(parts[1..]);
      if first.None? || rest.None? then None else Some([first.value] + rest.value)
  }

  lemma {:induction false} UnquotedAllQuoted(values: seq<string>)
    ensures UnquotedAll(Named("", values)) == Some(values)
  {
    if values != [] {
      var parts := Named("", values);
      assert "" + Quoted(values[0]) == Quoted(values[0]);
      assert parts[1..] == Named("", values[1..]);
      UnquotedQuoted(values[0]);
      UnquotedAllQuoted(values[1..]);
      assert values == [values[0]] + values[1..];
    }
  }

  /** Printing a list of strings and parsing it gives the list back, whatever the strings hold. */
  lemma PrintThenParse(values: seq<string>, separator: char)
    requires values != [] && separator != QUOTE
    ensures var parts := Parts(Join(Named("", values), [separator]), separator, false, false, "");
            parts.Some? && UnquotedAll(parts.value) == Some(values)
  {
    SplitsNamed("", values, separator);
    UnquotedAllQuoted(values);
  }

  // ---------- the header ----------

  function LowerAscii(s: string): string {
    if s == "" then "" else [if 'A' <= s[0] <= 'Z' then (s[0] as int + 32) as char else s[0]] + LowerAscii(s[1..])
  }

  // The value of the one `for` parameter among an element's parameters.
  function ForValue(parameters: seq<string>, selected: Option<string>): Option<Option<string>> {
    if parameters == [] then Some(selected)
    else
      var i := IndexOf(parameters[0], '=');
      if i.None? || i.value < 1 || i.value > |parameters[0]| then None
      else if LowerAscii(Trim(parameters[0][..i.value])) != "for" then ForValue(parameters[1..], selected)
      else if selected.Some? || i.value + 1 > |parameters[0]| then None
      else
        var value := Unquoted(Trim(parameters[0][i.value + 1..]));
        if value.None? then None else ForValue(parameters[1..], value)
  }

  function ElementAddress(element: string): Option<string> {
    var parameters := Parts(element, ';', false, false, "");
    if parameters.None? then None
    else
      var selected := ForValue(parameters.value, None);
      if selected.None? then None else selected.value
  }

  function Addresses(elements: seq<string>): Option<seq<string>> {
    if elements == [] then Some([])
    else
      var first, rest := ElementAddress(elements[0]), Addresses(elements[1..]);
      if first.None? || rest.None? then None else Some([first.value] + rest.value)
  }

  // The node names of a Forwarded header, before each is read as an address.
  function ParseForwarded(value: string): Option<seq<string>> {
    var elements := Parts(value, ',', false, false, "");
    if elements.None? then None else Addresses(elements.value)
  }

  lemma ForIsPlain(separator: char)
    requires separator == ';' || separator == ','
    ensures NameOk("for=", separator)
  {
    var name := "for=";
    assert |name| == 4 && name[0] == 'f' && name[1] == 'o' && name[2] == 'r' && name[3] == '=';
  }

  lemma ElementOf(value: string)
    ensures ElementAddress("for=" + Quoted(value)) == Some(value)
  {
    var element := "for=" + Quoted(value);
    ForIsPlain(';');
    ReadPart("for=", value, "", ';', "");
    assert element + "" == element && "" + element == element;
    TrimKeeps(element);
    assert Parts(element, ';', false, false, "") == Some([element]);
    ForValueOf(value);
  }

  lemma ForValueOf(value: string)
    ensures ForValue(["for=" + Quoted(value)], None) == Some(Some(value))
  {
    var element := "for=" + Quoted(value);
    EqualsAtThree(Quoted(value));
    assert element[..3] == "for" && element[4..] == Quoted(value);
    TrimKeeps("for");
    LowerFor();
    TrimKeeps(Quoted(value));
    UnquotedQuoted(value);
    assert [element][1..] == [];
    assert ForValue([], Some(value)) == Some(Some(value));
  }

  lemma EqualsAtThree(rest: string)
    ensures IndexOf("for=" + rest, '=') == Some(3)
  {
    var s := "for=" + rest;
    assert s[1..] == "or=" + rest && s[1..][1..] == "r=" + rest && s[1..][1..][1..] == "=" + rest;
    assert IndexOf("=" + rest, '=') == Some(0);
    assert IndexOf("r=" + rest, '=') == Some(1);
    assert IndexOf("or=" + rest, '=') == Some(2);
  }

  lemma LowerFor()
    ensures LowerAscii("for") == "for"
  {
    assert "for"[1..] == "or" && "or"[1..] == "r" && "r"[1..] == "";
  }

  lemma {:induction false} AddressesOf(values: seq<string>)
    ensures Addresses(Named("for=", values)) == Some(values)
  {
    if values != [] {
      var elements := Named("for=", values);
      ElementOf(values[0]);
      assert elements[0] == "for=" + Quoted(values[0]) && elements[1..] == Named("for=", values[1..]);
      AddressesOf(values[1..]);
      assert values == [values[0]] + values[1..];
    }
  }

  /** A Forwarded header naming each hop as a quoted `for` parameter is read back as those hops. */
  lemma ForwardedRoundTrip(hops: seq<string>)
    requires hops != []
    ensures ParseForwarded(Join(Named("for=", hops), ",")) == Some(hops)
  {
    ForIsPlain(',');
    SplitsNamed("for=", hops, ',');
    AddressesOf(hops);
  }
}
