/** The per-key token bucket in front of the mutating API (internal/api/ratelimit.go), and
    the proof that it decides exactly what the sliding-window rule decides. Times and token
    counts are reals. */
module RateLimit {

  datatype Bucket = Bucket(tokens: real, last: real)

  /** What drips into a bucket between two times. */
  function Drip(rps: real, a: real, b: real): (r: real) {
    (b - a) * rps
  }

  function Capped(x: real, burst: nat): (r: real) {
    if x > burst as real then burst as real else x
  }

  /** The tokens a call finds: a first call finds a full bucket, a later one what was left
      plus what has dripped in since, never more than the burst. */
  function Refilled(m: map<string, Bucket>, key: string, now: real, rps: real, burst: nat): (r: real) {
    if key in m then Capped(m[key].tokens + Drip(rps, m[key].last, now), burst) else burst as real
  }

  function Allowed(m: map<string, Bucket>, key: string, now: real, rps: real, burst: nat): (r: bool) {
    Refilled(m, key, now, rps, burst) >= 1.0
  }

  function Updated(m: map<string, Bucket>, key: string, now: real, rps: real, burst: nat): (r: map<string, Bucket>) {
    var t := Refilled(m, key, now, rps, burst);
    m[key := Bucket(if t >= 1.0 then t - 1.0 else t, now)]
  }

  class Limiter {
    const rps: real
    const burst: nat
    var buckets: map<string, Bucket>

    constructor (rps: real, burst: int)
      ensures this.rps == (if rps <= 0.0 then 10.0 else rps)
      ensures this.burst == (if burst <= 0 then 20 else burst)
      ensures this.rps > 0.0 && this.burst >= 1
      ensures buckets == map[]
    {
      this.rps := if rps <= 0.0 then 10.0 else rps;
      this.burst := if burst <= 0 then 20 else burst;
      buckets := map[];
    }

    /** One call for a key at time `now`. */
    method Allow(key: string, now: real) returns (ok: bool)
      modifies this
      ensures ok == Allowed(old(buckets), key, now, rps, burst)
      ensures buckets == Updated(old(buckets), key, now, rps, burst)
    {
      if key !in buckets {
        buckets := buckets[key := Bucket(burst as real, now)];
      }
      var b := buckets[key];
      var elapsed := now - b.last;
      assert elapsed * rps == Drip(rps, b.last, now);
      b := b.(tokens := b.tokens + elapsed * rps);
      if b.tokens > burst as real {
        b := b.(tokens := burst as real);
      }
      b := b.(last := now);
      ok := b.tokens >= 1.0;
      if ok {
        b := b.(tokens := b.tokens - 1.0);
      }
      buckets := buckets[key := b];
    }
  }

  // ---------------------------------------------------------------- runs

  datatype Call = Call(key: string, at: real)

  /** The buckets after a run of calls, for any keys, from a new limiter. */
  function After(run: seq<Call>, rps: real, burst: nat): (r: map<string, Bucket>) {
    if run == [] then map[]
    else
      var c := run[|run| - 1];
      Updated(After(run[..|run| - 1], rps, burst), c.key, c.at, rps, burst)
  }

  /** Was call j of the run let through? */
  function Passed(run: seq<Call>, j: nat, rps: real, burst: nat): (r: bool)
    requires j < |run|
  {
    Allowed(After(run[..j], rps, burst), run[j].key, run[j].at, rps, burst)
  }

  /** How many calls of `key` among calls i up to but not including j were let through. */
  function Count(run: seq<Call>, key: string, i: nat, j: nat, rps: real, burst: nat): (r: nat)
    requires i <= j <= |run|
    decreases j
  {
    if i == j then 0
    else Count(run, key, i, j - 1, rps, burst)
         + (if run[j - 1].key == key && Passed(run, j - 1, rps, burst) then 1 else 0)
  }

  ghost predicate Ordered(run: seq<Call>) {
    forall a, b | 0 <= a <= b < |run| :: run[a].at <= run[b].at
  }

  /** What window i..j leaves: the burst, plus the drip since call i, less the calls let
      through since call i. */
  function Allowance(run: seq<Call>, i: nat, j: nat, now: real, key: string, rps: real, burst: nat): (r: real)
    requires i <= j <= |run| && i < |run|
  {
    burst as real + Drip(rps, run[i].at, now) - Count(run, key, i, j, rps, burst) as real
  }

  /** Every bucket holds between zero and burst tokens and was last used at a time of the run. */
  lemma {:induction false} TokensStayInRange(run: seq<Call>, rps: real, burst: nat, key: string)
    requires rps > 0.0 && burst >= 1 && Ordered(run)
    requires key in After(run, rps, burst)
    ensures 0.0 <= After(run, rps, burst)[key].tokens <= burst as real
    ensures run != [] && After(run, rps, burst)[key].last <= run[|run| - 1].at
  {
    var n := |run| - 1;
    var before := After(run[..n], rps, burst);
    if key in before {
      TokensStayInRange(run[..n], rps, burst, key);
      if run[n].key == key {
        Drips(before[key].last, run[n].at, rps);
      }
    }
  }

  lemma Drips(a: real, b: real, rps: real)
    requires a <= b && rps > 0.0
    ensures Drip(rps, a, b) >= 0.0
  {
  }

  lemma DripSplits(a: real, b: real, c: real, rps: real)
    ensures Drip(rps, a, c) == Drip(rps, a, b) + Drip(rps, b, c)
  {
  }

  lemma {:induction false} CountOfPrefix(run: seq<Call>, key: string, i: nat, j: nat, rps: real, burst: nat)
    requires i <= j < |run|
    ensures Count(run[..|run| - 1], key, i, j, rps, burst) == Count(run, key, i, j, rps, burst)
    decreases j
  {
    if i < j {
      var p := run[..|run| - 1];
      CountOfPrefix(run, key, i, j - 1, rps, burst);
      assert p[..j - 1] == run[..j - 1];
    }
  }

  /** What `key` finds after one more call, of its own or of another key. */
  lemma RefilledAfterCall(run: seq<Call>, key: string, now: real, rps: real, burst: nat)
    requires run != []
    ensures var n, c := |run| - 1, run[|run| - 1];
            var m := After(run[..n], rps, burst);
            Refilled(After(run, rps, burst), key, now, rps, burst)
            == if c.key != key then Refilled(m, key, now, rps, burst)
               else Capped(Refilled(m, key, c.at, rps, burst) - (if Passed(run, n, rps, burst) then 1.0 else 0.0)
                           + Drip(rps, c.at, now), burst)
  {
  }

  /** t is the least of the burst and of what the windows of the run leave. */
  ghost predicate IsLeastAllowance(t: real, run: seq<Call>, key: string, now: real, rps: real, burst: nat) {
    && t <= burst as real
    && (forall i: nat | i < |run| :: t <= Allowance(run, i, |run|, now, key, rps, burst))
    && (t == burst as real || exists i: nat :: i < |run| && t == Allowance(run, i, |run|, now, key, rps, burst))
  }

  /** A call of the key itself turns the least allowance before it into the one after it. */
  lemma LeastAllowanceAfterOwnCall(u: real, run: seq<Call>, key: string, now: real, rps: real, burst: nat)
    requires rps > 0.0 && run != [] && run[|run| - 1].key == key && run[|run| - 1].at <= now
    requires var n := |run| - 1; IsLeastAllowance(u, run[..n], key, run[n].at, rps, burst)
    ensures var n := |run| - 1;
            IsLeastAllowance(Capped(u - (if Passed(run, n, rps, burst) then 1.0 else 0.0) + Drip(rps, run[n].at, now),
                                    burst),
                             run, key, now, rps, burst)
  {
    var n := |run| - 1;
    var p := run[..n];
    var took := if Passed(run, n, rps, burst) then 1.0 else 0.0;
    var d := Drip(rps, run[n].at, now);
    var t := Capped(u - took + d, burst);
    forall i: nat | i < |run|
      ensures Allowance(run, i, |run|, now, key, rps, burst)
              == (if i < n then Allowance(p, i, n, run[n].at, key, rps, burst) else burst as real) - took + d
      ensures t <= Allowance(run, i, |run|, now, key, rps, burst)
    {
      WindowGrows(run, i, key, now, rps, burst);
    }
    if t != burst as real {
      if u == burst as real {
        assert t == Allowance(run, n, |run|, now, key, rps, burst);
      } else {
        var i: nat :| i < |p| && u == Allowance(p, i, |p|, run[n].at, key, rps, burst);
        assert t == Allowance(run, i, |run|, now, key, rps, burst);
      }
    }
  }

  /** A call of another key changes nothing but the windows' lengths. */
  lemma LeastAllowanceAfterOtherCall(t: real, run: seq<Call>, key: string, now: real, rps: real, burst: nat)
    requires rps > 0.0 && run != [] && run[|run| - 1].key != key && run[|run| - 1].at <= now
    requires IsLeastAllowance(t, run[..|run| - 1], key, now, rps, burst)
    ensures IsLeastAllowance(t, run, key, now, rps, burst)
  {
    var n := |run| - 1;
    var p := run[..n];
    forall i: nat | i < |run|
      ensures i < n ==> Allowance(run, i, |run|, now, key, rps, burst) == Allowance(p, i, n, now, key, rps, burst)
      ensures t <= Allowance(run, i, |run|, now, key, rps, burst)
    {
      if i < n {
        CountOfPrefix(run, key, i, n, rps, burst);
      } else {
        Drips(run[i].at, now, rps);
        assert Count(run, key, n, n, rps, burst) == 0;
      }
    }
    if t != burst as real {
      var i: nat :| i < |p| && t == Allowance(p, i, |p|, now, key, rps, burst);
      assert t == Allowance(run, i, |run|, now, key, rps, burst);
    }
  }

  /** The bucket holds the least that any window leaves: a bucket with one counter carries
      the whole history of its key. */
  lemma {:induction false} TokensAreTheLeastAllowance(run: seq<Call>, key: string, now: real, rps: real, burst: nat)
    requires rps > 0.0 && burst >= 1 && Ordered(run)
    requires run != [] ==> run[|run| - 1].at <= now
    ensures IsLeastAllowance(Refilled(After(run, rps, burst), key, now, rps, burst), run, key, now, rps, burst)
  {
    if run != [] {
      var n, c := |run| - 1, run[|run| - 1];
      RefilledAfterCall(run, key, now, rps, burst);
      if c.key == key {
        TokensAreTheLeastAllowance(run[..n], key, c.at, rps, burst);
        LeastAllowanceAfterOwnCall(Refilled(After(run[..n], rps, burst), key, c.at, rps, burst), run, key, now, rps,
                                   burst);
      } else {
        TokensAreTheLeastAllowance(run[..n], key, now, rps, burst);
        LeastAllowanceAfterOtherCall(Refilled(After(run, rps, burst), key, now, rps, burst), run, key, now, rps, burst);
      }
    }
  }

  /** How one more call of the same key changes what a window leaves. */
  lemma WindowGrows(run: seq<Call>, i: nat, key: string, now: real, rps: real, burst: nat)
    requires i < |run| && run[|run| - 1].key == key
    ensures var n := |run| - 1;
            var took := if Passed(run, n, rps, burst) then 1.0 else 0.0;
            Allowance(run, i, |run|, now, key, rps, burst)
            == (if i < n then Allowance(run[..n], i, n, run[n].at, key, rps, burst) else burst as real)
               - took + Drip(rps, run[n].at, now)
  {
    var n := |run| - 1;
    assert Count(run, key, n, n, rps, burst) == 0;
    if i < n {
      CountOfPrefix(run, key, i, n, rps, burst);
    }
    DripSplits(run[i].at, run[n].at, now, rps);
  }

  /** Letting call j through keeps window i..j within burst + rps * length. */
  predicate HasRoom(run: seq<Call>, i: nat, j: nat, rps: real, burst: nat)
    requires i <= j < |run|
  {
    Count(run, run[j].key, i, j, rps, burst) as real + 1.0 <= burst as real + Drip(rps, run[i].at, run[j].at)
  }

  lemma HasRoomIsAllowance(run: seq<Call>, i: nat, j: nat, rps: real, burst: nat)
    requires burst >= 1 && i <= j < |run|
    ensures i < j ==> HasRoom(run, i, j, rps, burst)
                      == (Allowance(run[..j], i, j, run[j].at, run[j].key, rps, burst) >= 1.0)
    ensures i == j ==> HasRoom(run, i, j, rps, burst)
  {
    if i < j {
      CountOfLongerRun(run, run[j].key, i, j, j, rps, burst);
    } else {
      assert Count(run, run[j].key, j, j, rps, burst) == 0;
    }
  }

  /** The limiter lets a call through if and only if every window of the run that ends with
      it has room for it: calls of other keys have no say, and no call is refused without a
      window that is full. */
  lemma {:induction false} AllowedIffEveryWindowHasRoom(run: seq<Call>, j: nat, rps: real, burst: nat)
    requires rps > 0.0 && burst >= 1 && Ordered(run) && j < |run|
    ensures Passed(run, j, rps, burst) <==> forall i: nat | i <= j :: HasRoom(run, i, j, rps, burst)
  {
    var p, key, now := run[..j], run[j].key, run[j].at;
    var t := Refilled(After(p, rps, burst), key, now, rps, burst);
    TokensAreTheLeastAllowance(p, key, now, rps, burst);
    forall i: nat | i <= j
      ensures t >= 1.0 ==> HasRoom(run, i, j, rps, burst)
    {
      HasRoomIsAllowance(run, i, j, rps, burst);
    }
    if t < 1.0 {
      var i: nat :| i < |p| && t == Allowance(p, i, |p|, now, key, rps, burst);
      HasRoomIsAllowance(run, i, j, rps, burst);
    }
  }

  lemma {:induction false} CountOfLongerRun(run: seq<Call>, key: string, i: nat, j: nat, n: nat, rps: real, burst: nat)
    requires i <= j <= n <= |run|
    ensures Count(run[..n], key, i, j, rps, burst) == Count(run, key, i, j, rps, burst)
    decreases j
  {
    if i < j {
      CountOfLongerRun(run, key, i, j - 1, n, rps, burst);
      assert run[..n][..j - 1] == run[..j - 1];
    }
  }

  /** In any window of any run, the calls of a key that were let through number at most the
      burst plus the rate times the window's length. */
  lemma {:induction false} WindowBound(run: seq<Call>, key: string, i: nat, j: nat, rps: real, burst: nat)
    requires rps > 0.0 && burst >= 1 && Ordered(run) && i <= j < |run|
    ensures Count(run, key, i, j + 1, rps, burst) as real <= burst as real + Drip(rps, run[i].at, run[j].at)
    decreases j
  {
    if run[j].key == key && Passed(run, j, rps, burst) {
      AllowedIffEveryWindowHasRoom(run, j, rps, burst);
      assert HasRoom(run, i, j, rps, burst);
    } else if i < j {
      WindowBound(run, key, i, j - 1, rps, burst);
      Drips(run[j - 1].at, run[j].at, rps);
      DripSplits(run[i].at, run[j - 1].at, run[j].at, rps);
    } else {
      assert Count(run, key, i, j, rps, burst) == 0;
    }
  }

  /** A call that comes at least 1/rps after its key's previous call is always let through. */
  lemma {:induction false} PacedCallsAlwaysPass(run: seq<Call>, j: nat, rps: real, burst: nat)
    requires rps > 0.0 && burst >= 1 && Ordered(run) && j < |run|
    requires forall i | 0 <= i < j && run[i].key == run[j].key :: Drip(rps, run[i].at, run[j].at) >= 1.0
    ensures Passed(run, j, rps, burst)
  {
    var m, key := After(run[..j], rps, burst), run[j].key;
    if key in m {
      TokensStayInRange(run[..j], rps, burst, key);
      LastUseIsACall(run[..j], rps, burst, key);
    }
  }

  lemma {:induction false} LastUseIsACall(run: seq<Call>, rps: real, burst: nat, key: string)
    requires key in After(run, rps, burst)
    ensures exists i :: 0 <= i < |run| && run[i].key == key && run[i].at == After(run, rps, burst)[key].last
  {
    var n := |run| - 1;
    if run[n].key != key {
      LastUseIsACall(run[..n], rps, burst, key);
      var i :| 0 <= i < n && run[..n][i].key == key && run[..n][i].at == After(run[..n], rps, burst)[key].last;
      assert run[i] == run[..n][i];
    }
  }
}
