/** pollWithBackoff: capped exponential backoff with equal jitter, in integer time. */
module Backoff {
  function Max(a: int, b: int): int { if a > b then a else b }
  function Min(a: int, b: int): int { if a < b then a else b }

  /** A non-positive interval means one second. */
  const SECOND := 1_000_000_000

  function Interval(base: int): (b: int)
    ensures b > 0
  {
    if base <= 0 then SECOND else base
  }

  /** The nominal delay after one more transient error; prev <= 0 starts over. */
  function NextDelay(prev: int, base0: int, cap0: int): int {
    var base := Interval(base0);
    var cap := if cap0 < 2 * base then 2 * base else cap0;
    var d := if prev > 0 then prev * 2 else 2 * base;
    if d > cap then cap else d
  }

  /** `draw` is the random number, taken from 0 to half the delay. */
  function EqualJitter(d: int, draw: nat): int {
    if d <= 0 then 0 else d / 2 + (if draw > d / 2 then d / 2 else draw)
  }

  /** The sleep after a transient error whose nominal delay is `backoff`. */
  function RetrySleep(backoff: int, base: int, retryAfter: int, draw: nat, draw2: nat): int {
    var d := EqualJitter(backoff, draw);
    var d1 := if d < base then base else d;
    var floored := retryAfter + EqualJitter(base, draw2);
    if retryAfter > 0 && floored > d1 then floored else d1
  }

  function Pow2(k: nat): nat {
    if k == 0 then 1 else 2 * Pow2(k - 1)
  }

  /** The nominal delay after `k` transient errors in a row. */
  function Nominal(k: nat, base: int, cap: int): int {
    if k == 0 then 0 else NextDelay(Nominal(k - 1, base, cap), base, cap)
  }

  /** Closed form: doubling from 2*base up to the cap, which is never below 2*base. */
  lemma {:induction false} NominalClosedForm(k: nat, base: int, cap: int)
    requires k > 0 && base > 0
    ensures Nominal(k, base, cap) == Min(Pow2(k) * base, Max(cap, 2 * base))
  {
    if k == 1 {
      assert Nominal(0, base, cap) == 0;
      assert Pow2(1) == 2;
    } else {
      NominalClosedForm(k - 1, base, cap);
      Pow2Positive(k - 1);
      assert Pow2(k) * base == 2 * (Pow2(k - 1) * base);
      assert Pow2(k - 1) * base > 0;
    }
  }

  lemma Pow2Positive(k: nat)
    ensures Pow2(k) > 0
  {
  }

  /** Every sleep after a transient error is at least the poll interval and at least
      the server's Retry-After; without one it stays within max(cap, 2*base). */
  lemma RetrySleepBounds(k: nat, base: int, cap: int, retryAfter: int, draw: nat, draw2: nat)
    requires k > 0 && base > 0
    ensures var d := RetrySleep(Nominal(k, base, cap), base, retryAfter, draw, draw2);
      && d >= base
      && (retryAfter > 0 ==> d >= retryAfter)
      && (retryAfter <= 0 ==> d <= Max(cap, 2 * base))
      && (retryAfter <= 0 ==> Nominal(k, base, cap) / 2 <= d <= Nominal(k, base, cap))
  {
    NominalClosedForm(k, base, cap);
    AtLeastTwice(k, base);
  }

  lemma {:induction false} AtLeastTwice(k: nat, base: int)
    requires k > 0 && base > 0
    ensures Pow2(k) * base >= 2 * base
  {
    if k > 1 {
      AtLeastTwice(k - 1, base);
      assert Pow2(k) * base == 2 * (Pow2(k - 1) * base);
    }
  }

  // ------------------------------------------------------------ the poll loop

  datatype Reply = Ready | NotReady | Transient(retryAfter: int) | Abort

  /** One poll: what the condition answers, how long it takes, and the random draws. */
  datatype Turn = Turn(reply: Reply, took: nat, draw: nat, draw2: nat)

  datatype PollEnd = Succeeded | Aborted | BudgetSpent

  function CountTransient(turns: nat -> Turn, n: nat): nat {
    if n == 0 then 0 else CountTransient(turns, n - 1) + (if turns(n - 1).reply.Transient? then 1 else 0)
  }

  /** The run of transient errors that ends with poll `n - 1`. */
  function Streak(turns: nat -> Turn, n: nat): nat {
    if n == 0 || !turns(n - 1).reply.Transient? then 0 else Streak(turns, n - 1) + 1
  }

  /** The sleep that follows poll `n`. */
  function SleepAfter(turns: nat -> Turn, n: nat, base: int, cap: int): int {
    match turns(n).reply
    case Transient(ra) => RetrySleep(Nominal(Streak(turns, n + 1), base, cap), base, ra, turns(n).draw, turns(n).draw2)
    case _ => base
  }

  /** The time that the first polls and the sleeps after them take. */
  function Elapsed(turns: nat -> Turn, sleeps: seq<int>): int {
    if sleeps == [] then 0
    else Elapsed(turns, sleeps[..|sleeps| - 1]) + turns(|sleeps| - 1).took + sleeps[|sleeps| - 1]
  }

  lemma SleepAtLeastInterval(turns: nat -> Turn, n: nat, base: int, cap: int)
    requires base > 0
    ensures SleepAfter(turns, n, base, cap) >= base
  {
    if turns(n).reply.Transient? {
      RetrySleepBounds(Streak(turns, n + 1), base, cap, turns(n).reply.retryAfter, turns(n).draw, turns(n).draw2);
    }
  }

  lemma DelayFromInterval(prev: int, base0: int, cap: int)
    ensures NextDelay(prev, base0, cap) == NextDelay(prev, Interval(base0), cap)
  {
  }

  /** The jittered delay, raised to the interval and to the server's Retry-After. */
  method DelayAfter(backoff: int, base: int, retryAfter: int, draw: nat, draw2: nat) returns (d: int)
    ensures d == RetrySleep(backoff, base, retryAfter, draw, draw2)
  {
    d := EqualJitter(backoff, draw);
    if d < base {
      d := base;
    }
    if retryAfter > 0 {
      var floored := retryAfter + EqualJitter(base, draw2);
      if floored > d {
        d := floored;
      }
    }
  }

  /** pollWithBackoffImpl under a context that expires `budget` after the start: a
      sleep that would pass the deadline returns the context's error instead. */
  method PollWithBackoff(base0: int, cap: int, budget: nat, turns: nat -> Turn)
    returns (end: PollEnd, polls: nat, retries: nat, sleeps: seq<int>)
    ensures polls > 0 && (polls - 1) * Interval(base0) <= budget
    ensures polls <= budget / Interval(base0) + 1
    ensures forall i | 0 <= i < polls - 1 :: turns(i).reply.NotReady? || turns(i).reply.Transient?
    ensures end == match turns(polls - 1).reply
                   case Ready => Succeeded
                   case Abort => Aborted
                   case _ => BudgetSpent
    ensures retries == CountTransient(turns, polls - 1)
    ensures |sleeps| == (if end == BudgetSpent then polls else polls - 1)
    ensures end == BudgetSpent <==> Elapsed(turns, sleeps) > budget
    ensures Elapsed(turns, sleeps[..polls - 1]) <= budget
    ensures forall i | 0 <= i < |sleeps| :: sleeps[i] == SleepAfter(turns, i, Interval(base0), cap)
  {
    hide RetrySleep;
    hide NextDelay;
    hide Elapsed;
    hide Streak;
    hide Nominal;
    hide SleepAfter;
    hide CountTransient;
    Nothing(turns, base0, cap);
    var base := Interval(base0);
    var now, backoff := 0, 0;
    ghost var slept := 0;
    polls, retries, sleeps := 0, 0, [];
    while true
      invariant slept == polls * base && slept <= now && slept <= budget
      invariant backoff == Nominal(Streak(turns, polls), base, cap)
      invariant forall i | 0 <= i < polls :: turns(i).reply.NotReady? || turns(i).reply.Transient?
      invariant retries == CountTransient(turns, polls)
      invariant now == Elapsed(turns, sleeps) <= budget
      invariant |sleeps| == polls && forall i | 0 <= i < polls :: sleeps[i] == SleepAfter(turns, i, base, cap)
      decreases budget - slept
    {
      var turn := turns(polls);
      SleepAtLeastInterval(turns, polls, base, cap);
      PollsFit(polls + 1, base, budget);
      NextPoll(turns, polls, base, cap);
      assert sleeps[..polls] == sleeps;
      polls := polls + 1;
      now := now + turn.took;
      var d := base;
      match turn.reply {
        case Abort => return Aborted, polls, retries, sleeps;
        case Ready => return Succeeded, polls, retries, sleeps;
        case NotReady => backoff := 0;
        case Transient(retryAfter) =>
          DelayFromInterval(backoff, base0, cap);
          backoff := NextDelay(backoff, base0, cap);
          d := DelayAfter(backoff, base, retryAfter, turn.draw, turn.draw2);
      }
      assert d == SleepAfter(turns, polls - 1, base, cap);
      AddSleep(turns, sleeps, d);
      sleeps := sleeps + [d];
      if now + d > budget {
        return BudgetSpent, polls, retries, sleeps;
      }
      now := now + d;
      slept := slept + base;
      if turn.reply.Transient? {
        retries := retries + 1;
      }
    }
  }

  lemma Nothing(turns: nat -> Turn, base: int, cap: int)
    ensures Elapsed(turns, []) == 0 && CountTransient(turns, 0) == 0 && Nominal(Streak(turns, 0), base, cap) == 0
    ensures Nominal(0, Interval(base), cap) == 0 && Streak(turns, 0) == 0
  {
  }

  /** What one more poll adds. */
  lemma NextPoll(turns: nat -> Turn, n: nat, base: int, cap: int)
    ensures var turn := turns(n);
      && CountTransient(turns, n + 1) == CountTransient(turns, n) + (if turn.reply.Transient? then 1 else 0)
      && Nominal(Streak(turns, n + 1), base, cap)
         == (if turn.reply.Transient? then NextDelay(Nominal(Streak(turns, n), base, cap), base, cap) else 0)
      && SleepAfter(turns, n, base, cap)
         == if turn.reply.Transient?
            then RetrySleep(Nominal(Streak(turns, n + 1), base, cap), base, turn.reply.retryAfter, turn.draw, turn.draw2)
            else base
  {
    hide RetrySleep;
    hide NextDelay;
  }

  lemma AddSleep(turns: nat -> Turn, sleeps: seq<int>, d: int)
    ensures Elapsed(turns, sleeps + [d]) == Elapsed(turns, sleeps) + turns(|sleeps|).took + d
    ensures (sleeps + [d])[..|sleeps|] == sleeps
  {
    assert (sleeps + [d])[..|sleeps|] == sleeps;
  }

  lemma MulMonotone(a: int, b: int, c: int)
    requires a <= b && c >= 0
    ensures a * c <= b * c
  {
  }

  /** At most one poll per interval in the budget, and the first one. */
  lemma PollsFit(polls: nat, base: int, budget: nat)
    requires base > 0 && polls > 0 && (polls - 1) * base <= budget
    ensures polls <= budget / base + 1
  {
    var q := budget / base;
    assert budget == q * base + budget % base;
    assert (q + 1) * base == q * base + base;
    if polls - 1 > q {
      MulMonotone(q + 1, polls - 1, base);
    }
  }
}
