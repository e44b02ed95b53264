/** List operations shared by the evaluators and parsers. */
module Lists {
  import opened Common

  function Filter<T>(s: seq<T>, keep: T -> bool): seq<T> {
    if s == [] then [] else (if keep(s[0]) then [s[0]] else []) + Filter(s[1..], keep)
  }

  function Map<T, U>(s: seq<T>, f: T -> U): (r: seq<U>)
    ensures |r| == |s| && forall i | 0 <= i < |s| :: r[i] == f(s[i])
  {
    if s == [] then [] else [f(s[0])] + Map(s[1..], f)
  }

  lemma {:induction false} FilterIn<T>(s: seq<T>, keep: T -> bool, x: T)
    ensures x in Filter(s, keep) <==> x in s && keep(x)
  {
    if s != [] {
      FilterIn(s[1..], keep, x);
      assert x in s <==> x == s[0] || x in s[1..];
    }
  }

  // ---------- sorting ----------

  predicate Distinct<T(==)>(s: seq<T>) { forall i, j | 0 <= i < j < |s| :: s[i] != s[j] }

  predicate NonDecreasing(s: seq<int>) { forall i, j | 0 <= i < j < |s| :: s[i] <= s[j] }

  predicate Sorted(s: seq<nat>) { forall i, j | 0 <= i < j < |s| :: s[i] <= s[j] }

  predicate SameElements<T(==)>(s: seq<T>, t: seq<T>) {
    (forall x | x in s :: x in t) && (forall x | x in t :: x in s)
  }

  function Insert(x: nat, s: seq<nat>): (r: seq<nat>)
    ensures forall y :: y in r <==> y == x || y in s
  {
    if s == [] || x <= s[0] then [x] + s
    else
      assert s == [s[0]] + s[1..];
      [s[0]] + Insert(x, s[1..])
  }

  lemma {:induction false} InsertSorts(x: nat, s: seq<nat>)
    requires Sorted(s)
    ensures Sorted(Insert(x, s)) && (x !in s && Distinct(s) ==> Distinct(Insert(x, s)))
  {
    if s != [] && x > s[0] {
      InsertSorts(x, s[1..]);
      var rest := Insert(x, s[1..]);
      forall i | 0 <= i < |rest| ensures s[0] <= rest[i] && (x !in s && Distinct(s) ==> s[0] != rest[i]) {
        assert rest[i] == x || rest[i] in s[1..];
      }
    }
  }

  function Sort(s: seq<nat>): (r: seq<nat>)
    ensures Sorted(r) && forall y :: y in r <==> y in s
  {
    if s == [] then [] else
      assert s == [s[0]] + s[1..];
      InsertSorts(s[0], Sort(s[1..]));
      Insert(s[0], Sort(s[1..]))
  }

  lemma {:induction false} SortKeepsDistinct(s: seq<nat>)
    requires Distinct(s)
    ensures Distinct(Sort(s))
  {
    if s != [] {
      SortKeepsDistinct(s[1..]);
      assert s[0] !in s[1..];
      InsertSorts(s[0], Sort(s[1..]));
    }
  }

  lemma SameElementsEmpty<T(!new)>(s: seq<T>, t: seq<T>)
    requires SameElements(s, t)
    ensures s == [] <==> t == []
  {
    if s != [] { assert s[0] in t; }
    if t != [] { assert t[0] in s; }
  }

  lemma TailElements(s: seq<nat>, t: seq<nat>)
    requires Distinct(s) && s != [] && t != [] && s[0] == t[0] && forall x | x in s :: x in t
    ensures forall x | x in s[1..] :: x in t[1..]
  {
    forall x | x in s[1..] ensures x in t[1..] {
      assert x in s && x != s[0];
      assert t == [t[0]] + t[1..];
    }
  }

  lemma {:induction false} StrictIsUnique(s: seq<nat>, t: seq<nat>)
    requires Sorted(s) && Distinct(s) && Sorted(t) && Distinct(t) && SameElements(s, t)
    ensures s == t
    decreases |s|
  {
    SameElementsEmpty(s, t);
    if s != [] {
      assert s[0] in t;
      assert t[0] in s;
      assert s[0] == t[0];
      assert s == [s[0]] + s[1..] && t == [t[0]] + t[1..];
      TailElements(s, t);
      TailElements(t, s);
      StrictIsUnique(s[1..], t[1..]);
    }
  }

  // Sorting forgets the order the elements came in.
  lemma SortCanonical(s: seq<nat>, t: seq<nat>)
    requires Distinct(s) && Distinct(t) && SameElements(s, t)
    ensures Sort(s) == Sort(t)
  {
    SortKeepsDistinct(s);
    SortKeepsDistinct(t);
    StrictIsUnique(Sort(s), Sort(t));
  }

  // First occurrences only.
  function Dedupe(s: seq<nat>): (r: seq<nat>)
    ensures Distinct(r) && forall y :: y in r <==> y in s
  {
    if s == [] then []
    else
      var n := |s| - 1;
      assert s == s[..n] + [s[n]];
      if s[n] in s[..n] then Dedupe(s[..n]) else Dedupe(s[..n]) + [s[n]]
  }

  function SortUnique(s: seq<nat>): (r: seq<nat>)
    ensures Sorted(r) && Distinct(r) && forall y :: y in r <==> y in s
  {
    SortKeepsDistinct(Dedupe(s));
    Sort(Dedupe(s))
  }

  lemma SortUniqueCanonical(s: seq<nat>, t: seq<nat>)
    requires SameElements(s, t)
    ensures SortUnique(s) == SortUnique(t)
  {
    StrictIsUnique(SortUnique(s), SortUnique(t));
  }

  // ---------- text ----------

  function IndexOf(s: string, c: char): (i: Option<nat>)
    ensures i.Some? ==> i.value < |s| && s[i.value] == c && c !in s[..i.value]
    ensures i.None? ==> c !in s
  {
    if s == "" then None
    else if s[0] == c then Some(0)
    else
      var rest := IndexOf(s[1..], c);
      if rest.None? then None
      else
        assert s[..rest.value + 1] == [s[0]] + s[1..][..rest.value];
        Some(rest.value + 1)
  }

  // ---------- separated lists ----------

  // The parts between separators; a list always has at least one part.
  function Split(s: string, separator: char): (parts: seq<string>)
    ensures parts != []
    decreases |s|
  {
    if s == "" then [""]
    else if s[0] == separator then [""] + Split(s[1..], separator)
    else
      var rest := Split(s[1..], separator);
      [[s[0]] + rest[0]] + rest[1..]
  }

  function Join(parts: seq<string>, separator: string): string {
    if parts == [] then "" else if |parts| == 1 then parts[0] else parts[0] + separator + Join(parts[1..], separator)
  }

  lemma {:induction false} SplitJoined(a: string, b: string, separator: char)
    ensures Split(a + [separator] + b, separator) == Split(a, separator) + Split(b, separator)
    decreases |a|
  {
    var s := a + [separator] + b;
    if a == "" {
      assert s[1..] == b;
    } else {
      assert s[0] == a[0] && s[1..] == a[1..] + [separator] + b;
      SplitJoined(a[1..], b, separator);
    }
  }

  lemma {:induction false} JoinSplit(s: string, separator: char)
    ensures Join(Split(s, separator), [separator]) == s
    decreases |s|
  {
    if s != "" {
      var rest := Split(s[1..], separator);
      JoinSplit(s[1..], separator);
      var parts := Split(s, separator);
      if s[0] == separator {
        assert parts[1..] == rest;
      } else {
        assert parts[1..] == rest[1..];
        assert Join(parts, [separator]) == [s[0]] + Join(rest, [separator]);
      }
      assert s == [s[0]] + s[1..];
    }
  }

  lemma {:induction false} JoinAppend(a: seq<string>, b: seq<string>, separator: string)
    requires a != [] && b != []
    ensures Join(a + b, separator) == Join(a, separator) + separator + Join(b, separator)
    decreases |a|
  {
    assert (a + b)[1..] == a[1..] + b;
    if |a| > 1 { JoinAppend(a[1..], b, separator); } else { assert a[1..] + b == b; }
  }
}
