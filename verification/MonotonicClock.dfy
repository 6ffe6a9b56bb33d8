/** The ratchet that turns a clock that may step back into one that never does. */
module MonotonicClock {
  datatype Timeval = Timeval(sec: int, usec: int)

  /** The two fields a timer keeps between readings. */
  datatype Clock = Clock(adjust: Timeval, last: Timeval)

  predicate Normal(t: Timeval) {
    0 <= t.usec < 1_000_000
  }

  predicate Settled(c: Clock) {
    Normal(c.adjust) && Normal(c.last)
  }

  function Micros(t: Timeval): int {
    t.sec * 1_000_000 + t.usec
  }

  function Max(a: int, b: int): int {
    if a < b then b else a
  }

  function Add(t: Timeval, u: Timeval): (r: Timeval)
    requires Normal(t) && Normal(u)
    ensures Normal(r) && Micros(r) == Micros(t) + Micros(u)
  {
    if t.usec + u.usec >= 1_000_000 then Timeval(t.sec + u.sec + 1, t.usec + u.usec - 1_000_000)
    else Timeval(t.sec + u.sec, t.usec + u.usec)
  }

  function Subtract(t: Timeval, u: Timeval): (r: Timeval)
    requires Normal(t) && Normal(u)
    ensures Normal(r) && Micros(r) == Micros(t) - Micros(u)
  {
    if t.usec - u.usec < 0 then Timeval(t.sec - u.sec - 1, t.usec - u.usec + 1_000_000)
    else Timeval(t.sec - u.sec, t.usec - u.usec)
  }

  predicate Earlier(t: Timeval, u: Timeval)
    requires Normal(t) && Normal(u)
    ensures Earlier(t, u) <==> Micros(t) < Micros(u)
  {
    if t.sec == u.sec then t.usec < u.usec else t.sec < u.sec
  }

  class MonotonicTimer {
    var adjustMonotonicClock: Timeval
    var lastTime: Timeval

    ghost function State(): Clock
      reads this
    {
      Clock(adjustMonotonicClock, lastTime)
    }

    constructor ()
      ensures State() == START
    {
      adjustMonotonicClock, lastTime := Timeval(0, 0), Timeval(0, 0);
    }

    /** Corrects one reading: the time returned is the later of the last one and the corrected reading. */
    method AdjustMonotonicTime(source: Timeval) returns (tv: Timeval)
      requires Settled(State()) && Normal(source)
      modifies this
      ensures Settled(State()) && Normal(tv)
      ensures tv == lastTime
      ensures Micros(tv) == Max(old(Micros(lastTime)), Micros(source) + old(Micros(adjustMonotonicClock)))
      ensures Micros(adjustMonotonicClock) == Micros(tv) - Micros(source)
      ensures State() == After(old(State()), source)
    {
      tv := Add(source, adjustMonotonicClock);
      if Earlier(tv, lastTime) {
        var adjust := Subtract(lastTime, tv);
        adjustMonotonicClock := Add(adjust, adjustMonotonicClock);
        tv := lastTime;
      }
      lastTime := tv;
      SameTime(lastTime, After(old(State()), source).last);
      SameTime(adjustMonotonicClock, After(old(State()), source).adjust);
    }
  }

  const START: Clock := Clock(Timeval(0, 0), Timeval(0, 0))

  /** The normal form of a number of microseconds. */
  function FromMicros(m: int): (t: Timeval)
    ensures Normal(t) && Micros(t) == m
  {
    Timeval(m / 1_000_000, m % 1_000_000)
  }

  /** A clock after one reading of its source, by the time that has passed rather than by the fields. */
  function After(c: Clock, source: Timeval): Clock {
    var now := Max(Micros(c.last), Micros(source) + Micros(c.adjust));
    Clock(FromMicros(now - Micros(source)), FromMicros(now))
  }

  lemma Start()
    ensures Settled(START) && Micros(START.last) == 0 && Micros(START.adjust) == 0
  {
  }

  lemma AfterReading(c: Clock, source: Timeval)
    ensures Settled(After(c, source))
    ensures Micros(After(c, source).last) == Max(Micros(c.last), Micros(source) + Micros(c.adjust))
    ensures Micros(After(c, source).adjust) == Micros(After(c, source).last) - Micros(source)
  {
  }

  lemma SameTime(t: Timeval, u: Timeval)
    requires Normal(t) && Normal(u) && Micros(t) == Micros(u)
    ensures t == u
  {
  }

  /** The clock after reading each of the source's times in turn. */
  function Run(sources: seq<Timeval>): Clock {
    if |sources| == 0 then START else After(Run(sources[..|sources| - 1]), sources[|sources| - 1])
  }

  /** The steps forward of a source, the first one counted from zero. */
  function Progress(sources: seq<Timeval>): int {
    if |sources| == 0 then 0
    else if |sources| == 1 then Max(0, Micros(sources[0]))
    else Progress(sources[..|sources| - 1])
         + Max(0, Micros(sources[|sources| - 1]) - Micros(sources[|sources| - 2]))
  }

  /**
   * Over any run: the time shown is the latest reading plus the correction, and is exactly the sum of
   * the source's steps forward, however often the source stepped back.
   */
  lemma {:induction false} RunProgress(sources: seq<Timeval>)
    ensures Settled(Run(sources))
    ensures Micros(Run(sources).last) == Progress(sources)
    ensures |sources| > 0 ==>
              Micros(Run(sources).last) == Micros(sources[|sources| - 1]) + Micros(Run(sources).adjust)
  {
    hide Micros, After;
    if |sources| == 0 {
      Start();
    } else {
      var before := sources[..|sources| - 1];
      RunProgress(before);
      AfterReading(Run(before), sources[|sources| - 1]);
      if |sources| > 1 {
        assert before[|before| - 1] == sources[|sources| - 2];
      }
    }
  }

  /** No later reading shows an earlier time, or a smaller correction. */
  lemma {:induction false} NeverBack(sources: seq<Timeval>, n: nat)
    requires n <= |sources|
    ensures Micros(Run(sources[..n]).last) <= Micros(Run(sources).last)
    ensures 0 < n ==> Micros(Run(sources[..n]).adjust) <= Micros(Run(sources).adjust)
  {
    hide Micros, After;
    if n == |sources| {
      assert sources[..n] == sources;
    } else {
      var before := sources[..|sources| - 1];
      NeverBack(before, n);
      assert before[..n] == sources[..n];
      AfterReading(Run(before), sources[|sources| - 1]);
      RunProgress(before);
    }
  }

  /** Between two consecutive readings the time shown advances by what the source advanced, if it did. */
  lemma Advance(sources: seq<Timeval>, next: Timeval)
    requires |sources| > 0
    ensures Micros(Run(sources + [next]).last) - Micros(Run(sources).last)
            == Max(0, Micros(next) - Micros(sources[|sources| - 1]))
  {
    var all := sources + [next];
    assert all[..|all| - 1] == sources;
    RunProgress(sources);
  }
}
