/** The round-trip time estimator of lib/rtt.c.  The C floats are modelled by reals, so
    rounding is not part of the model; timestamps keep their 32-bit wrap-around. */
module Rtt {
  import opened Basics

  const RXTMIN := 2.0
  const RXTMAX := 60.0
  const MAXNREXMT := 3

  /** The value of `struct rtt_info`. */
  datatype Info = Info(rtt: real, srtt: real, rttvar: real, rto: real, nrexmt: int, base: int)

  function RtoCalc(srtt: real, rttvar: real): real {
    srtt + 4.0 * rttvar
  }

  function MinMax(rto: real): (r: real)
    ensures RXTMIN <= r <= RXTMAX && (RXTMIN <= rto <= RXTMAX ==> r == rto)
  {
    if rto < RXTMIN then RXTMIN else if rto > RXTMAX then RXTMAX else rto
  }

  /** Time is a count of microseconds, as gettimeofday gives it in two parts. */
  function Init(p: Info, now: nat): Info {
    p.(base := now / 1_000_000 % WRAP32, rtt := 0.0, srtt := 0.0, rttvar := 0.75, rto := MinMax(RtoCalc(0.0, 0.75)))
  }

  function Timestamp(p: Info, now: nat): (ts: nat)
    ensures ts < WRAP32
  {
    ((now / 1_000_000 - p.base) * 1000 + now % 1_000_000 / 1000) % WRAP32
  }

  function NewPack(p: Info): Info {
    p.(nrexmt := 0)
  }

  /** Seconds for alarm: the timeout rounded to the nearest integer. */
  function Start(p: Info): int {
    (p.rto + 0.5).Floor
  }

  function Abs(x: real): real {
    if x < 0.0 then -x else x
  }

  function Stop(p: Info, ms: nat): Info {
    var rtt := ms as real / 1000.0;
    var delta := rtt - p.srtt;
    var srtt := p.srtt + delta / 8.0;
    var rttvar := p.rttvar + (Abs(delta) - p.rttvar) / 4.0;
    p.(rtt := rtt, srtt := srtt, rttvar := rttvar, rto := MinMax(RtoCalc(srtt, rttvar)))
  }

  function Backoff(p: Info): Info {
    p.(rto := p.rto * 2.0, nrexmt := p.nrexmt + 1)
  }

  predicate GivesUp(p: Info) {
    p.nrexmt > MAXNREXMT
  }

  class RttInfo {
    var rtt: real
    var srtt: real
    var rttvar: real
    var rto: real
    var nrexmt: int
    var base: int

    function View(): Info
      reads this
    {
      Info(rtt, srtt, rttvar, rto, nrexmt, base)
    }

    constructor ()
      ensures View() == Info(0.0, 0.0, 0.0, 0.0, 0, 0)
    {
      rtt, srtt, rttvar, rto, nrexmt, base := 0.0, 0.0, 0.0, 0.0, 0, 0;
    }

    method RttInit(now: nat)
      modifies this
      ensures View() == Init(old(View()), now) && Bounded(View(), 0.0) && rto == 3.0
    {
      base := now / 1_000_000 % WRAP32;
      rtt := 0.0;
      srtt := 0.0;
      rttvar := 0.75;
      rto := MinMax(RtoCalc(srtt, rttvar));
    }

    method RttNewPack()
      modifies this
      ensures View() == NewPack(old(View())) && !GivesUp(View())
    {
      nrexmt := 0;
    }

    method RttStop(ms: nat)
      modifies this
      ensures View() == Stop(old(View()), ms) && RXTMIN <= rto <= RXTMAX
      ensures forall peak | Bounded(old(View()), peak) && ms as real / 1000.0 <= peak :: Bounded(View(), peak)
    {
      ghost var p := View();
      rtt := ms as real / 1000.0;
      var delta := rtt - srtt;
      srtt := srtt + delta / 8.0;
      if delta < 0.0 {
        delta := -delta;
      }
      rttvar := rttvar + (delta - rttvar) / 4.0;
      rto := MinMax(RtoCalc(srtt, rttvar));
      forall peak | Bounded(p, peak) && ms as real / 1000.0 <= peak ensures Bounded(View(), peak) {
        StopBounded(p, ms, peak);
      }
    }

    /** Whether it is time to give up. */
    method RttTimeout() returns (gaveUp: bool)
      modifies this
      ensures View() == Backoff(old(View())) && gaveUp == GivesUp(View())
      ensures gaveUp <==> old(nrexmt) >= MAXNREXMT
    {
      rto := rto * 2.0;
      nrexmt := nrexmt + 1;
      return nrexmt > MAXNREXMT;
    }
  }

  // ---- facts ----

  /** What the estimators keep, given a bound on every sample since they were reset. */
  predicate Bounded(p: Info, peak: real) {
    && 0.0 <= p.srtt <= peak && 0.0 <= p.rttvar
    && (p.rttvar <= 0.75 || p.rttvar <= peak)
  }

  /** The limit is the value nearest to the one calculated. */
  lemma MinMaxNearest(rto: real, x: real)
    requires RXTMIN <= x <= RXTMAX
    ensures Abs(MinMax(rto) - rto) <= Abs(x - rto)
    ensures Abs(MinMax(rto) - rto) == Abs(x - rto) ==> x == MinMax(rto)
  {
  }

  /** The estimator after `k` timeouts. */
  function Backoffs(p: Info, k: nat): Info {
    if k == 0 then p else Backoff(Backoffs(p, k - 1))
  }

  function Doubled(x: real, k: nat): real {
    if k == 0 then x else 2.0 * Doubled(x, k - 1)
  }

  /** Every timeout of a packet doubles its timer, and the one that makes more than MAXNREXMT
      is the first to give up; the estimates stay. */
  lemma {:induction false} GivesUpAfter(p: Info, k: nat)
    ensures var q := Backoffs(NewPack(p), k);
            && q.rto == Doubled(p.rto, k) && q.nrexmt == k && (GivesUp(q) <==> k > MAXNREXMT)
            && q.srtt == p.srtt && q.rttvar == p.rttvar && q.base == p.base
  {
    if k > 0 {
      GivesUpAfter(p, k - 1);
    }
  }

  lemma InitBounded(p: Info, now: nat)
    ensures Bounded(Init(p, now), 0.0) && Init(p, now).rto == 3.0
  {
  }

  lemma {:induction false} StopBounded(p: Info, ms: nat, peak: real)
    requires Bounded(p, peak) && ms as real / 1000.0 <= peak
    ensures Bounded(Stop(p, ms), peak) && RXTMIN <= Stop(p, ms).rto <= RXTMAX
  {
    var rtt := ms as real / 1000.0;
    assert Abs(rtt - p.srtt) <= peak;
  }

  lemma PeakGrows(p: Info, peak: real, more: real)
    requires Bounded(p, peak) && peak <= more
    ensures Bounded(p, more)
  {
  }

  /** The difference of two timestamps under the same base is the time between them in
      milliseconds, wrapped: exact when that is below 2^32. */
  lemma {:induction false} Elapsed(p: Info, q: Info, sent: nat, now: nat)
    requires p.base == q.base && sent <= now
    ensures (Timestamp(q, now) - Timestamp(p, sent)) % WRAP32 == (now / 1000 - sent / 1000) % WRAP32
    ensures now / 1000 - sent / 1000 < WRAP32 ==>
              (Timestamp(q, now) - Timestamp(p, sent)) % WRAP32 == now / 1000 - sent / 1000
  {
    hide Timestamp;
    TimestampIs(q, now);
    TimestampIs(p, sent);
    WrapSub(now / 1000 - p.base * 1000, sent / 1000 - p.base * 1000);
  }

  lemma {:induction false} TimestampIs(p: Info, t: nat)
    ensures Timestamp(p, t) == (t / 1000 - p.base * 1000) % WRAP32
  {
    Millis(t);
  }

  /** Timestamps count milliseconds from the second in which the estimators were reset. */
  lemma {:induction false} SinceInit(p: Info, start: nat, now: nat)
    requires start / 1_000_000 < WRAP32 && start <= now && now / 1000 < start / 1_000_000 * 1000 + WRAP32
    ensures Timestamp(Init(p, start), now) == now / 1000 - start / 1_000_000 * 1000
  {
    TimestampIs(Init(p, start), now);
    SmallBase(start / 1_000_000);
    Millis(start);
    hide Timestamp, Init;
    SmallBase(now / 1000 - start / 1_000_000 * 1000);
  }

  lemma SmallBase(x: int)
    requires 0 <= x < WRAP32
    ensures x % WRAP32 == x
  {
  }

  lemma Millis(t: nat)
    ensures t / 1_000_000 * 1000 + t % 1_000_000 / 1000 == t / 1000
  {
  }

  lemma {:induction false} WrapSub(x: int, y: int)
    ensures (x % WRAP32 - y % WRAP32) % WRAP32 == (x - y) % WRAP32
  {
    var k := x / WRAP32 - y / WRAP32;
    assert x - y == (x % WRAP32 - y % WRAP32) + k * WRAP32;
    WrapShift(x % WRAP32 - y % WRAP32, k);
  }

  lemma {:induction false} WrapShift(x: int, k: int)
    ensures (x + k * WRAP32) % WRAP32 == x % WRAP32
    decreases if k < 0 then -k else k
  {
    if k > 0 {
      WrapShift(x, k - 1);
      assert x + k * WRAP32 == (x + (k - 1) * WRAP32) + WRAP32;
    } else if k < 0 {
      WrapShift(x, k + 1);
      assert x + k * WRAP32 == (x + (k + 1) * WRAP32) - WRAP32;
    }
  }

  /** Alarms for timeouts between 2 and 480 seconds are whole seconds in that range. */
  lemma AlarmRange(p: Info)
    requires 2.0 <= p.rto <= 480.0
    ensures 2 <= Start(p) <= 480
  {
  }

  /** The alarm is the whole number of seconds nearest to the timeout, of two the later one. */
  lemma AlarmNearest(p: Info, n: int)
    ensures Abs(Start(p) as real - p.rto) <= Abs(n as real - p.rto)
    ensures n != Start(p) && Abs(Start(p) as real - p.rto) == Abs(n as real - p.rto) ==> n < Start(p)
  {
  }
}
