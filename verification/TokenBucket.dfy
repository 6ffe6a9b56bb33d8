/** Token buckets: the arithmetic of ev_token_bucket_update_ and what it bounds. */
module TokenBucket {
  const UINT32: nat := 0x1_0000_0000
  const UINT64: nat := 0x1_0000_0000_0000_0000
  const INT_MAX: nat := 0x7fff_ffff
  const SSIZE_MAX: nat := 0x7fff_ffff_ffff_ffff
  const SSIZE_MIN: int := -0x8000_0000_0000_0000

  /** ev_token_bucket_cfg: bytes per tick, and the most a bucket holds. */
  datatype Cfg = Cfg(readRate: nat, readMax: nat, writeRate: nat, writeMax: nat)

  /** What ev_token_bucket_cfg_new accepts. */
  predicate ValidCfg(c: Cfg) {
    1 <= c.readRate <= c.readMax <= SSIZE_MAX && 1 <= c.writeRate <= c.writeMax <= SSIZE_MAX
  }

  function Min(a: int, b: int): int {
    if a <= b then a else b
  }

  /** The difference of a size_t and an ssize_t, as the unsigned arithmetic of the code has it. */
  function Unsigned(x: int): nat {
    x % UINT64
  }

  /** What an ssize_t holds after x has been stored in it. */
  function Signed(x: int): (r: int)
    ensures SSIZE_MIN <= r <= SSIZE_MAX
    ensures SSIZE_MIN <= x <= SSIZE_MAX ==> r == x
  {
    var w := x % UINT64;
    if w > SSIZE_MAX then w - UINT64 else w
  }

  /** The ticks that current is past last, both counted modulo 2^32. */
  function Elapsed(last: nat, current: nat): (n: nat)
    ensures n < UINT32
  {
    (current - last) % UINT32
  }

  /** The limit after n ticks at rate. */
  function Refill(limit: int, n: nat, rate: nat, max: nat): int {
    if n == 0 || n > INT_MAX then limit
    else if Unsigned(max - limit) / n < rate then max
    else Signed(limit + n * rate)
  }

  /** For a limit within its maximum, refilling does what the naive form would do without overflow:
      no intermediate value leaves 64 bits. */
  lemma RefillMeaning(limit: int, n: nat, rate: nat, max: nat)
    requires SSIZE_MIN <= limit <= max <= SSIZE_MAX && 0 < n <= INT_MAX
    ensures Refill(limit, n, rate, max) == Min(max, limit + n * rate)
    ensures Unsigned(max - limit) == max - limit
    ensures Refill(limit, n, rate, max) != max ==> n * rate < UINT64
  {
    hide Signed;
    QuotientBelow(max - limit, n, rate);
    assert n * rate >= 0;
  }

  lemma QuotientBelow(d: nat, n: nat, r: nat)
    requires n > 0
    ensures d / n < r <==> d < n * r
  {
    if d / n < r {
      assert n * (d / n + 1) <= n * r;
    } else {
      assert n * r <= n * (d / n);
    }
  }

  /** Beyond its maximum a limit is cut back exactly when the tokens to be added reach the difference as it
      wraps around; below that the refill goes on adding. */
  lemma RefillOverfull(limit: int, n: nat, rate: nat, max: nat)
    requires max < limit <= SSIZE_MAX && 0 < n <= INT_MAX && 0 < rate
    ensures Refill(limit, n, rate, max) == Min(max, limit + n * rate) <==> UINT64 - (limit - max) <= n * rate
    ensures UINT64 - (limit - max) > n * rate ==> Refill(limit, n, rate, max) == Signed(limit + n * rate)
  {
    hide Signed;
    var gap := UINT64 - (limit - max);
    QuotientBelow(gap, n, rate);
    assert Unsigned(max - limit) == gap;
    assert n * rate > 0;
    if n * rate <= gap {
      SignedOver(limit + n * rate, max);
    }
  }

  lemma SignedOver(x: int, max: nat)
    requires max < x <= UINT64 + max && max <= SSIZE_MAX
    ensures Signed(x) == max <==> x == UINT64 + max
  {
  }

  /** A bucket for 1000 bytes at 100 a tick, lifted to 1500 by giving 600 back to the 900 in it, has 1600
      after a tick. */
  lemma Overfilled()
    ensures ValidCfg(Cfg(100, 1000, 100, 1000)) && 900 - (-600) == 1500
    ensures Refill(1500, 1, 100, 1000) == 1600 && Min(1000, 1500 + 1 * 100) == 1000
  {
    RefillOverfull(1500, 1, 100, 1000);
  }

  class Bucket {
    var readLimit: int
    var writeLimit: int
    var lastUpdated: nat

    /** ev_token_bucket_init_ for a new bucket. */
    constructor (cfg: Cfg, currentTick: nat)
      ensures readLimit == cfg.readRate && writeLimit == cfg.writeRate && lastUpdated == currentTick
    {
      readLimit, writeLimit, lastUpdated := cfg.readRate, cfg.writeRate, currentTick;
    }

    /** ev_token_bucket_init_ for a bucket in use: the limits are only clipped downwards. */
    method Reinit(cfg: Cfg)
      modifies this
      ensures readLimit == Min(old(readLimit), cfg.readMax) && writeLimit == Min(old(writeLimit), cfg.writeMax)
      ensures lastUpdated == old(lastUpdated)
    {
      if readLimit > cfg.readMax {
        readLimit := cfg.readMax;
      }
      if writeLimit > cfg.writeMax {
        writeLimit := cfg.writeMax;
      }
    }

    /** ev_token_bucket_update_ */
    method Update(cfg: Cfg, currentTick: nat) returns (changed: bool)
      requires ValidCfg(cfg) && currentTick < UINT32 && lastUpdated < UINT32
      requires SSIZE_MIN <= readLimit <= SSIZE_MAX && SSIZE_MIN <= writeLimit <= SSIZE_MAX
      modifies this
      ensures var n := Elapsed(old(lastUpdated), currentTick);
              && changed == (0 < n <= INT_MAX)
              && readLimit == Refill(old(readLimit), n, cfg.readRate, cfg.readMax)
              && writeLimit == Refill(old(writeLimit), n, cfg.writeRate, cfg.writeMax)
              && (changed && old(readLimit) <= cfg.readMax ==> readLimit == Min(cfg.readMax, old(readLimit) + n * cfg.readRate))
              && (changed && old(writeLimit) <= cfg.writeMax ==> writeLimit == Min(cfg.writeMax, old(writeLimit) + n * cfg.writeRate))
              && (changed ==> lastUpdated == currentTick)
              && (!changed ==> readLimit == old(readLimit) && writeLimit == old(writeLimit) && lastUpdated == old(lastUpdated))
    {
      var n := (currentTick - lastUpdated) % UINT32;
      if n == 0 || n > INT_MAX {
        return false;
      }
      hide Signed;
      if readLimit <= cfg.readMax {
        RefillMeaning(readLimit, n, cfg.readRate, cfg.readMax);
      }
      if writeLimit <= cfg.writeMax {
        RefillMeaning(writeLimit, n, cfg.writeRate, cfg.writeMax);
      }
      if Unsigned(cfg.readMax - readLimit) / n < cfg.readRate {
        readLimit := cfg.readMax;
      } else {
        readLimit := Signed(readLimit + n * cfg.readRate);
      }
      if Unsigned(cfg.writeMax - writeLimit) / n < cfg.writeRate {
        writeLimit := cfg.writeMax;
      } else {
        writeLimit := Signed(writeLimit + n * cfg.writeRate);
      }
      lastUpdated := currentTick;
      changed := true;
    }
  }

  // ---------------------------------------------------------------- runs

  /** Bytes charged against a bucket, or an update at a moment of the true, unbounded tick count. */
  datatype Action = Charge(bytes: nat) | UpdateAt(time: nat)

  /** One direction of a bucket: its limit and the tick, modulo 2^32, of its last update. */
  datatype Level = Level(limit: int, last: nat)

  function Act(l: Level, a: Action, rate: nat, max: nat): Level {
    match a
    case Charge(k) => Level(l.limit - k, l.last)
    case UpdateAt(t) =>
      var n := Elapsed(l.last, t % UINT32);
      if 0 < n <= INT_MAX then Level(Refill(l.limit, n, rate, max), t % UINT32) else l
  }

  function Run(l: Level, acts: seq<Action>, rate: nat, max: nat): Level
    decreases |acts|
  {
    if |acts| == 0 then l else Run(Act(l, acts[0], rate, max), acts[1..], rate, max)
  }

  function Charged(acts: seq<Action>): nat {
    if |acts| == 0 then 0 else (if acts[0].Charge? then acts[0].bytes else 0) + Charged(acts[1..])
  }

  /** The times of the updates do not go back, and start at from. */
  predicate Ordered(from: nat, acts: seq<Action>)
    decreases |acts|
  {
    |acts| == 0 ||
    (match acts[0]
     case Charge(_) => Ordered(from, acts[1..])
     case UpdateAt(t) => from <= t && Ordered(t, acts[1..]))
  }

  /** The time of the last update. */
  function LastTime(from: nat, acts: seq<Action>): nat
    decreases |acts|
  {
    if |acts| == 0 then from
    else LastTime(if acts[0].UpdateAt? then acts[0].time else from, acts[1..])
  }

  /** No run drives a limit below what an ssize_t holds. */
  predicate NoUnderflow(l: Level, acts: seq<Action>, rate: nat, max: nat)
    decreases |acts|
  {
    l.limit >= SSIZE_MIN && (|acts| == 0 || NoUnderflow(Act(l, acts[0], rate, max), acts[1..], rate, max))
  }

  /** Ticks counted modulo 2^32 never exceed the true ones. */
  lemma ElapsedBelow(accounted: nat, time: nat)
    requires accounted <= time
    ensures Elapsed(accounted % UINT32, time % UINT32) <= time - accounted
    ensures Elapsed(accounted % UINT32, time % UINT32) % UINT32 == (time - accounted) % UINT32
  {
    var a, t := accounted % UINT32, time % UINT32;
    assert accounted == UINT32 * (accounted / UINT32) + a && time == UINT32 * (time / UINT32) + t;
    var q := time / UINT32 - accounted / UINT32;
    assert time - accounted == UINT32 * q + (t - a);
    if t >= a {
      assert Elapsed(a, t) == t - a;
    } else {
      assert Elapsed(a, t) == t - a + UINT32;
      assert q >= 1;
    }
  }

  /** Over any run, whatever the order of charges and updates and however the tick counter wraps, the
      limit stays within its maximum and the bytes charged, with what is left, never exceed the initial
      limit and the rate over the time that passed. */
  lemma {:induction false} RunBound(l: Level, acts: seq<Action>, rate: nat, max: nat, from: nat, accounted: nat)
    requires l.limit <= max <= SSIZE_MAX && l.last == accounted % UINT32 && accounted <= from
    requires Ordered(from, acts) && NoUnderflow(l, acts, rate, max)
    ensures var e := Run(l, acts, rate, max);
            e.limit <= max && Charged(acts) + e.limit <= l.limit + rate * (LastTime(from, acts) - accounted)
    ensures LastTime(from, acts) >= from
    decreases |acts|
  {
    if |acts| > 0 {
      var a := acts[0];
      var l' := Act(l, a, rate, max);
      match a
      case Charge(k) =>
        RunBound(l', acts[1..], rate, max, from, accounted);
      case UpdateAt(t) =>
        var n := Elapsed(l.last, t % UINT32);
        ElapsedBelow(accounted, t);
        if 0 < n <= INT_MAX {
          RefillMeaning(l.limit, n, rate, max);
          RunBound(l', acts[1..], rate, max, t, t);
          var d := LastTime(t, acts[1..]) - t;
          Scale(rate, n, t - accounted, d);
        } else {
          RunBound(l', acts[1..], rate, max, t, accounted);
        }
    } else {
      assert rate * (from - accounted) >= 0;
    }
  }

  lemma Scale(rate: nat, n: nat, m: nat, d: nat)
    requires n <= m
    ensures n * rate + rate * d <= rate * (m + d)
  {
    assert n * rate <= m * rate;
  }

  /** In particular, a limit that is not negative in the end bounds the bytes charged. */
  lemma ChargedBound(l: Level, acts: seq<Action>, rate: nat, max: nat, from: nat)
    requires l.limit <= max <= SSIZE_MAX && l.last == from % UINT32
    requires Ordered(from, acts) && NoUnderflow(l, acts, rate, max) && Run(l, acts, rate, max).limit >= 0
    ensures Charged(acts) <= l.limit + rate * (LastTime(from, acts) - from)
  {
    RunBound(l, acts, rate, max, from, from);
  }

  // ---------------------------------------------------------------- recovery

  /** Refilling once a tick for k ticks. */
  function Ticks(limit: int, k: nat, rate: nat, max: nat): int
    decreases k
  {
    if k == 0 then limit else Ticks(Refill(limit, 1, rate, max), k - 1, rate, max)
  }

  /** Without traffic a limit is back at any level within its maximum after as many ticks as the rate
      needs to make up the difference. */
  lemma {:induction false} Recovery(limit: int, k: nat, rate: nat, max: nat, goal: int)
    requires SSIZE_MIN <= limit <= max <= SSIZE_MAX && rate > 0 && goal <= max && goal <= limit + k * rate
    ensures Ticks(limit, k, rate, max) >= goal
    decreases k
  {
    if k > 0 {
      RefillMeaning(limit, 1, rate, max);
      var l := Refill(limit, 1, rate, max);
      assert k * rate == (k - 1) * rate + rate;
      assert (k - 1) * rate >= 0;
      Recovery(l, k - 1, rate, max, goal);
    }
  }
}
