/** The token bucket that limits public token mints (cmd/stem/publicingress.go), over exact reals. */
module MintLimiter {
  datatype Limit = Limit(rate: real, burst: real)

  datatype Bucket = Bucket(tokens: real, last: real)

  /** The bucket after one clock reading, before a token is taken. A reading that is not later than the
      last one changes nothing. */
  function Refill(l: Limit, b: Bucket, now: real): Bucket {
    if now > b.last then
      var filled := b.tokens + (now - b.last) * l.rate;
      Bucket(if filled > l.burst then l.burst else filled, now)
    else b
  }

  function Take(b: Bucket): Bucket {
    if b.tokens < 1.0 then b else b.(tokens := b.tokens - 1.0)
  }

  /** The bucket that call k finds, given the clock readings of all calls, oldest first. */
  function Filled(l: Limit, created: real, readings: seq<real>, k: nat): Bucket
    requires k < |readings|
    decreases k, 1
  {
    Refill(l, After(l, created, readings, k), readings[k])
  }

  /** The bucket after the first n calls. */
  function After(l: Limit, created: real, readings: seq<real>, n: nat): Bucket
    requires n <= |readings|
    decreases n, 0
  {
    if n == 0 then Bucket(l.burst, created) else Take(Filled(l, created, readings, n - 1))
  }

  predicate Granted(l: Limit, created: real, readings: seq<real>, k: nat)
    requires k < |readings|
  {
    Filled(l, created, readings, k).tokens >= 1.0
  }

  // ---------------------------------------------------------------------------------------------
  // The reference: windows of calls
  // ---------------------------------------------------------------------------------------------

  /** The latest moment seen by the time of call k; readings that go backward do not move it. */
  function Clock(created: real, readings: seq<real>, k: nat): real
    requires k < |readings|
  {
    var before := if k == 0 then created else Clock(created, readings, k - 1);
    if readings[k] > before then readings[k] else before
  }

  /** Grants among calls i, ..., k - 1. */
  function Grants(l: Limit, created: real, readings: seq<real>, i: nat, k: nat): nat
    requires i <= k <= |readings|
  {
    if i == k then 0
    else Grants(l, created, readings, i, k - 1) + (if Granted(l, created, readings, k - 1) then 1 else 0)
  }

  /** What the limit allows in the window of calls i, ..., k: the burst, and the rate for the time by which
      the clock advanced since call i. */
  function Allowance(l: Limit, created: real, readings: seq<real>, i: nat, k: nat): real
    requires i <= k < |readings|
  {
    l.burst + (Clock(created, readings, k) - Clock(created, readings, i)) * l.rate
  }

  /** Granting call k would keep every window that ends at it within its allowance. */
  predicate FitsEveryWindow(l: Limit, created: real, readings: seq<real>, k: nat)
    requires k < |readings|
  {
    forall i | 0 <= i <= k ::
      Grants(l, created, readings, i, k) as real + 1.0 <= Allowance(l, created, readings, i, k)
  }

  /** Room left in the window of calls i, ..., k before call k is decided. */
  function Slack(l: Limit, created: real, readings: seq<real>, i: nat, k: nat): real
    requires i <= k < |readings|
  {
    Allowance(l, created, readings, i, k) - Grants(l, created, readings, i, k) as real
  }

  lemma {:induction false} ClockIsLast(l: Limit, created: real, readings: seq<real>, k: nat)
    requires k < |readings|
    ensures Filled(l, created, readings, k).last == Clock(created, readings, k)
  {
    if k > 0 {
      ClockIsLast(l, created, readings, k - 1);
    }
  }

  lemma Distributes(a: real, b: real, r: real)
    ensures (a + b) * r == a * r + b * r
  {
  }

  lemma ProductIsNonNegative(a: real, r: real)
    requires a >= 0.0 && r >= 0.0
    ensures a * r >= 0.0
  {
  }

  /** Tokens gained between call k and call k + 1, less the token that call k took. */
  function Change(l: Limit, created: real, readings: seq<real>, k: nat): real
    requires k + 1 < |readings|
  {
    (Clock(created, readings, k + 1) - Clock(created, readings, k)) * l.rate
    - (if Granted(l, created, readings, k) then 1.0 else 0.0)
  }

  lemma SlackStep(l: Limit, created: real, readings: seq<real>, i: nat, k: nat)
    requires i <= k && k + 1 < |readings|
    ensures Slack(l, created, readings, i, k + 1) == Slack(l, created, readings, i, k) + Change(l, created, readings, k)
  {
    var ci, ck, cn := Clock(created, readings, i), Clock(created, readings, k), Clock(created, readings, k + 1);
    Distributes(ck - ci, cn - ck, l.rate);
    assert (ck - ci) + (cn - ck) == cn - ci;
  }

  /** Refilling by the advance of the clock, which is nothing when the reading is not later. */
  lemma RefillByAdvance(l: Limit, b: Bucket, now: real, advance: real)
    requires b.tokens <= l.burst && advance == if now > b.last then now - b.last else 0.0
    ensures var filled := b.tokens + advance * l.rate;
            Refill(l, b, now).tokens == if filled > l.burst then l.burst else filled
  {
    if now <= b.last {
      assert advance * l.rate == 0.0;
    }
  }

  /** The tokens follow the same recurrence, capped at the burst. */
  lemma TokensStep(l: Limit, created: real, readings: seq<real>, k: nat)
    requires k + 1 < |readings| && l.rate >= 0.0 && Filled(l, created, readings, k).tokens <= l.burst
    ensures var next := Filled(l, created, readings, k).tokens + Change(l, created, readings, k);
            Filled(l, created, readings, k + 1).tokens == if next > l.burst then l.burst else next
  {
    var b, found := After(l, created, readings, k + 1), Filled(l, created, readings, k);
    var advance := Clock(created, readings, k + 1) - Clock(created, readings, k);
    ClockIsLast(l, created, readings, k);
    assert b == Take(found) && b.last == Clock(created, readings, k);
    assert Filled(l, created, readings, k + 1) == Refill(l, b, readings[k + 1]);
    RefillByAdvance(l, b, readings[k + 1], advance);
    assert Change(l, created, readings, k) == advance * l.rate - (if found.tokens >= 1.0 then 1.0 else 0.0);
  }

  lemma {:induction false} TokensNeverExceedBurst(l: Limit, created: real, readings: seq<real>, k: nat)
    requires k < |readings| && l.rate >= 0.0
    ensures Filled(l, created, readings, k).tokens <= l.burst
    ensures k == 0 ==> Filled(l, created, readings, k).tokens == l.burst
  {
    if k > 0 {
      TokensNeverExceedBurst(l, created, readings, k - 1);
    } else if readings[0] > created {
      ProductIsNonNegative(readings[0] - created, l.rate);
    }
  }

  /** The tokens that call k finds are at most the slack of every window that ends at it ... */
  lemma {:induction false} TokensFitWindow(l: Limit, created: real, readings: seq<real>, i: nat, k: nat)
    requires i <= k < |readings| && l.rate >= 0.0
    ensures Filled(l, created, readings, k).tokens <= Slack(l, created, readings, i, k)
  {
    TokensNeverExceedBurst(l, created, readings, k);
    if i < k {
      TokensFitWindow(l, created, readings, i, k - 1);
      TokensNeverExceedBurst(l, created, readings, k - 1);
      TokensStep(l, created, readings, k - 1);
      SlackStep(l, created, readings, i, k - 1);
    }
  }

  /** ... and equal the slack of one of them. */
  lemma {:induction false} TightestWindow(l: Limit, created: real, readings: seq<real>, k: nat) returns (i: nat)
    requires k < |readings| && l.rate >= 0.0
    ensures i <= k && Filled(l, created, readings, k).tokens == Slack(l, created, readings, i, k)
  {
    TokensNeverExceedBurst(l, created, readings, k);
    i := k;
    if Filled(l, created, readings, k).tokens != l.burst {
      i := TightestWindow(l, created, readings, k - 1);
      TokensNeverExceedBurst(l, created, readings, k - 1);
      TokensStep(l, created, readings, k - 1);
      SlackStep(l, created, readings, i, k - 1);
    }
  }

  /** The limiter is the token bucket: a call is granted exactly when granting it keeps every window of
      calls that ends at it within the burst plus the rate, whatever the clock reads. */
  lemma GrantedExactlyWhenEveryWindowFits(l: Limit, created: real, readings: seq<real>, k: nat)
    requires k < |readings| && l.rate >= 0.0
    ensures Granted(l, created, readings, k) <==> FitsEveryWindow(l, created, readings, k)
  {
    var tight := TightestWindow(l, created, readings, k);
    forall i | 0 <= i <= k
      ensures Filled(l, created, readings, k).tokens + Grants(l, created, readings, i, k) as real
              <= Allowance(l, created, readings, i, k)
    {
      TokensFitWindow(l, created, readings, i, k);
    }
    assert FitsEveryWindow(l, created, readings, k) ==>
        Grants(l, created, readings, tight, k) as real + 1.0 <= Allowance(l, created, readings, tight, k);
  }

  predicate WithinAllowance(l: Limit, created: real, readings: seq<real>, i: nat, k: nat)
    requires i <= k < |readings|
  {
    Grants(l, created, readings, i, k + 1) as real <= Allowance(l, created, readings, i, k)
  }

  lemma {:induction false} TokensStayNonNegative(l: Limit, created: real, readings: seq<real>, k: nat)
    requires k < |readings| && l.rate >= 0.0 && l.burst >= 0.0
    ensures Filled(l, created, readings, k).tokens >= 0.0
  {
    if k > 0 {
      TokensStayNonNegative(l, created, readings, k - 1);
    }
    var b := After(l, created, readings, k);
    assert k > 0 ==> b == Take(Filled(l, created, readings, k - 1));
    assert b.tokens >= 0.0;
    assert Filled(l, created, readings, k) == Refill(l, b, readings[k]);
    if readings[k] > b.last {
      var elapsed := readings[k] - b.last;
      ProductIsNonNegative(elapsed, l.rate);
      assert b.tokens + elapsed * l.rate >= 0.0;
    }
  }

  lemma NoWindowIsOverdrawn(l: Limit, created: real, readings: seq<real>, i: nat, k: nat)
    requires i <= k < |readings| && l.rate >= 0.0 && l.burst >= 0.0
    ensures WithinAllowance(l, created, readings, i, k)
  {
    TokensFitWindow(l, created, readings, i, k);
    TokensStayNonNegative(l, created, readings, k);
  }

  /** For a bucket, over all creation times and clock readings, no window ever exceeds its allowance. */
  ghost predicate NeverOverdrawn(l: Limit) {
    forall created: real, readings: seq<real>, i: nat, k: nat | i <= k < |readings| ::
      WithinAllowance(l, created, readings, i, k)
  }

  /** The window bound holds for every sequence of calls exactly when the configured rate and burst are
      not negative. */
  lemma NeverOverdrawnExactlyWhenNonNegative(l: Limit)
    ensures NeverOverdrawn(l) <==> l.rate >= 0.0 && l.burst >= 0.0
  {
    if l.rate >= 0.0 && l.burst >= 0.0 {
      forall created: real, readings: seq<real>, i: nat, k: nat | i <= k < |readings|
        ensures WithinAllowance(l, created, readings, i, k)
      {
        NoWindowIsOverdrawn(l, created, readings, i, k);
      }
    } else if l.burst < 0.0 {
      assert !WithinAllowance(l, 0.0, [0.0], 0, 0);
    } else {
      // A negative rate shrinks the allowance below zero as the clock advances.
      var later := (l.burst + 1.0) / -l.rate;
      assert later * l.rate == -(l.burst + 1.0);
      var readings := [0.0, later];
      assert Clock(0.0, readings, 0) == 0.0 && Clock(0.0, readings, 1) == later;
      assert !WithinAllowance(l, 0.0, readings, 0, 1);
    }
  }

  lemma {:induction false} LaterReadingsDoNotMatter(
      l: Limit, created: real, readings: seq<real>, more: seq<real>, n: nat)
    requires n <= |readings|
    ensures After(l, created, readings + more, n) == After(l, created, readings, n)
  {
    if n > 0 {
      LaterReadingsDoNotMatter(l, created, readings, more, n - 1);
    }
  }

  /** One more call, on the bucket that the earlier ones left. */
  lemma NextCall(l: Limit, created: real, readings: seq<real>, now: real)
    ensures var all, n := readings + [now], |readings|;
            var found := Refill(l, After(l, created, readings, n), now);
            && After(l, created, all, n + 1) == Take(found)
            && Granted(l, created, all, n) == (found.tokens >= 1.0)
            && (l.rate >= 0.0 ==> Granted(l, created, all, n) == FitsEveryWindow(l, created, all, n))
  {
    LaterReadingsDoNotMatter(l, created, readings, [now], |readings|);
    if l.rate >= 0.0 {
      GrantedExactlyWhenEveryWindowFits(l, created, readings + [now], |readings|);
    }
  }

  /** The limiter object. The mutex makes each call one step, so a run of calls in any interleaving is a
      sequence of readings. */
  class MintRateLimiter {
    const limit: Limit
    const created: real
    var tokens: real
    var last: real
    ghost var readings: seq<real>

    ghost predicate Valid()
      reads this
    {
      Bucket(tokens, last) == After(limit, created, readings, |readings|)
    }

    constructor (rate: real, burst: int, now: real)
      ensures Valid() && limit == Limit(rate, burst as real) && created == now && readings == []
    {
      limit := Limit(rate, burst as real);
      created := now;
      tokens := burst as real;
      last := now;
      readings := [];
    }

    method Allow(now: real) returns (granted: bool)
      requires Valid()
      modifies this
      ensures Valid() && readings == old(readings) + [now]
      ensures granted == Granted(limit, created, readings, |readings| - 1)
      ensures limit.rate >= 0.0 ==> granted == FitsEveryWindow(limit, created, readings, |readings| - 1)
    {
      NextCall(limit, created, readings, now);
      readings := readings + [now];
      var elapsed := now - last;
      if elapsed > 0.0 {
        tokens := tokens + elapsed * limit.rate;
        if tokens > limit.burst {
          tokens := limit.burst;
        }
        last := now;
      }
      assert Bucket(tokens, last) == Refill(limit, old(Bucket(tokens, last)), now);
      if tokens < 1.0 {
        return false;
      }
      tokens := tokens - 1.0;
      return true;
    }
  }
}
