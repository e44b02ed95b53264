/** The fixed-window limiter in front of every login, and how many attempts it lets through in any
    interval as long as its window. */
module GlobalLoginLimiter {
  import opened Lists

  datatype Limits = Limits(limit: nat, windowMs: nat)
  datatype State = State(count: nat, resetAt: int)
  datatype Answer = Allowed | Refused(retryAfterMs: int)

  const FRESH := State(0, 0)

  function Reset(l: Limits, s: State, now: int): State {
    if now >= s.resetAt then State(0, now + l.windowMs) else s
  }

  predicate Admits(l: Limits, s: State, now: int) { Reset(l, s, now).count < l.limit }

  function Taken(l: Limits, s: State, now: int): State {
    var t := Reset(l, s, now);
    if Admits(l, s, now) then t.(count := t.count + 1) else t
  }

  class GlobalLoginLimiter {
    const limits: Limits
    var count: nat
    var resetAt: int

    ghost function Model(): State
      reads this
    {
      State(count, resetAt)
    }

    constructor (limits: Limits)
      ensures this.limits == limits && Model() == FRESH
    {
      this.limits := limits;
      count, resetAt := 0, 0;
    }

    // A refused caller is told to wait until the window resets, and always a positive time.
    method Take(now: int) returns (answer: Answer)
      modifies this
      ensures Model() == Taken(limits, old(Model()), now)
      ensures answer.Allowed? <==> Admits(limits, old(Model()), now)
      ensures answer.Refused? ==> answer.retryAfterMs >= 1 && now + answer.retryAfterMs >= resetAt
      ensures answer.Refused? && resetAt > now ==> now + answer.retryAfterMs == resetAt
    {
      if now >= resetAt {
        count := 0;
        resetAt := now + limits.windowMs;
      }
      if count >= limits.limit {
        return Refused(if resetAt - now >= 1 then resetAt - now else 1);
      }
      count := count + 1;
      answer := Allowed;
    }
  }

  // The attempts, made at these times, that are let through at a time in [from, until).
  function Admitted(l: Limits, s: State, times: seq<int>, from: int, until: int): nat
    decreases |times|
  {
    if times == [] then 0
    else
      (if Admits(l, s, times[0]) && from <= times[0] < until then 1 else 0)
      + Admitted(l, Taken(l, s, times[0]), times[1..], from, until)
  }

  // A window that stays open to the end of the interval lets through what is left of its limit.
  lemma {:induction false} WithinOneWindow(l: Limits, s: State, times: seq<int>, from: int, until: int)
    requires NonDecreasing(times) && s.count <= l.limit && s.resetAt >= until
    ensures Admitted(l, s, times, from, until) <= l.limit - s.count
    decreases |times|
  {
    if times != [] {
      if times[0] < until {
        WithinOneWindow(l, Taken(l, s, times[0]), times[1..], from, until);
      } else {
        NoneAfter(l, s, times, from, until);
      }
    }
  }

  lemma {:induction false} NoneAfter(l: Limits, s: State, times: seq<int>, from: int, until: int)
    requires NonDecreasing(times) && (times != [] ==> times[0] >= until)
    ensures Admitted(l, s, times, from, until) == 0
    decreases |times|
  {
    if times != [] { NoneAfter(l, Taken(l, s, times[0]), times[1..], from, until); }
  }

  // From inside the interval on, at most the rest of this window and one more.
  lemma {:induction false} AtMostTwoWindows(l: Limits, s: State, times: seq<int>, from: int)
    requires NonDecreasing(times) && s.count <= l.limit && (times != [] ==> times[0] >= from)
    ensures Admitted(l, s, times, from, from + l.windowMs) <= 2 * l.limit - s.count
    decreases |times|
  {
    if times != [] {
      var t := Taken(l, s, times[0]);
      if times[0] >= from + l.windowMs {
        NoneAfter(l, s, times, from, from + l.windowMs);
      } else if times[0] >= s.resetAt {
        WithinOneWindow(l, t, times[1..], from, from + l.windowMs);
      } else {
        AtMostTwoWindows(l, t, times[1..], from);
      }
    }
  }

  // A window is opened by an attempt it counts.
  predicate Opened(l: Limits, s: State) { s.count <= l.limit && (s == FRESH || s.count >= 1) }

  lemma {:induction false} AdmissionBoundFrom(l: Limits, s: State, times: seq<int>, from: int)
    requires NonDecreasing(times) && (times != [] ==> times[0] >= 0) && l.limit >= 1 && Opened(l, s)
    ensures Admitted(l, s, times, from, from + l.windowMs) <= 2 * l.limit - 1
    decreases |times|
  {
    if times != [] {
      var t := Taken(l, s, times[0]);
      if times[0] < from {
        AdmissionBoundFrom(l, t, times[1..], from);
      } else if s == FRESH {
        if times[0] < from + l.windowMs {
          WithinOneWindow(l, t, times[1..], from, from + l.windowMs);
        } else {
          NoneAfter(l, s, times, from, from + l.windowMs);
        }
      } else {
        AtMostTwoWindows(l, s, times, from);
      }
    }
  }

  /** Over any run with a clock that never goes back, every interval of the window's length lets
      through fewer than twice the limit. */
  lemma AdmissionBound(l: Limits, times: seq<int>, from: int)
    requires NonDecreasing(times) && (times != [] ==> times[0] >= 0)
    ensures Admitted(l, FRESH, times, from, from + l.windowMs) <= if l.limit == 0 then 0 else 2 * l.limit - 1
  {
    if l.limit == 0 { NoLimitAdmitsNone(l, FRESH, times, from, from + l.windowMs); } else {
      AdmissionBoundFrom(l, FRESH, times, from);
    }
  }

  lemma {:induction false} NoLimitAdmitsNone(l: Limits, s: State, times: seq<int>, from: int, until: int)
    requires l.limit == 0
    ensures Admitted(l, s, times, from, until) == 0
    decreases |times|
  {
    if times != [] { NoLimitAdmitsNone(l, Taken(l, s, times[0]), times[1..], from, until); }
  }

  function Repeat(time: int, n: nat): (times: seq<int>)
    ensures |times| == n && forall i | 0 <= i < n :: times[i] == time
  {
    if n == 0 then [] else [time] + Repeat(time, n - 1)
  }

  lemma {:induction false} BurstIsAdmitted(l: Limits, s: State, time: int, n: nat, rest: seq<int>, from: int,
                                           until: int)
    requires s.count + n <= l.limit && time < s.resetAt && from <= time < until
    ensures Admitted(l, s, Repeat(time, n) + rest, from, until)
            == n + Admitted(l, s.(count := s.count + n), rest, from, until)
    decreases n
  {
    if n == 0 {
      assert Repeat(time, n) + rest == rest;
    } else {
      var times := Repeat(time, n) + rest;
      assert times[1..] == Repeat(time, n - 1) + rest;
      BurstIsAdmitted(l, s.(count := s.count + 1), time, n - 1, rest, from, until);
    }
  }

  function Burst(l: Limits): seq<int>
    requires l.limit >= 1
  {
    [0] + (Repeat(l.windowMs - 1, l.limit - 1) + Repeat(l.windowMs, l.limit))
  }

  lemma BurstIsNonDecreasing(l: Limits)
    requires l.limit >= 1 && l.windowMs >= 2
    ensures NonDecreasing(Burst(l))
  {
    assert forall i | 0 <= i < |Burst(l)| ::
      Burst(l)[i] == if i == 0 then 0 else if i < l.limit then l.windowMs - 1 else l.windowMs;
  }

  /** The bound is met: one attempt opens a window, the rest of its limit comes at its last moment and
      a whole limit at the first moment of the next. */
  lemma AdmissionBoundIsMet(l: Limits)
    requires l.limit >= 1 && l.windowMs >= 2
    ensures NonDecreasing(Burst(l)) && Admitted(l, FRESH, Burst(l), 1, 1 + l.windowMs) == 2 * l.limit - 1
  {
    var w := l.windowMs;
    BurstIsNonDecreasing(l);
    assert Taken(l, FRESH, 0) == State(1, w);
    var rest := Repeat(w - 1, l.limit - 1) + Repeat(w, l.limit);
    assert Burst(l)[1..] == rest;
    assert Admitted(l, FRESH, Burst(l), 1, 1 + w) == Admitted(l, State(1, w), rest, 1, 1 + w);
    BurstIsAdmitted(l, State(1, w), w - 1, l.limit - 1, Repeat(w, l.limit), 1, 1 + w);
    NextWindowIsAdmitted(l, State(l.limit, w), w, 1, 1 + w);
  }

  lemma NextWindowIsAdmitted(l: Limits, s: State, time: int, from: int, until: int)
    requires l.limit >= 1 && l.windowMs >= 1 && time >= s.resetAt && from <= time < until
    ensures Admitted(l, s, Repeat(time, l.limit), from, until) == l.limit
  {
    var rest := Repeat(time, l.limit - 1);
    assert Repeat(time, l.limit)[1..] == rest + [];
    BurstIsAdmitted(l, State(1, time + l.windowMs), time, l.limit - 1, [], from, until);
  }
}
