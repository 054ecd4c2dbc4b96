/**
 The round-trip estimator and retransmission timer of basic_lib/rtt.c, over
 exact reals. `Sampled` is the update of section 2 (rule 2.3) of RFC 6298 with
 alpha = 1/8 and beta = 1/4; the class `RttInfo` runs the program's own
 statements and is proved equal to it.
 */
module Rtt {

  const RXT_MIN := 2.0
  const RXT_MAX := 60.0
  const MAX_NREXMT := 3

  datatype Estimate = Estimate(srtt: real, rttvar: real, rto: real, nrexmt: int)

  /** What a client does between two packets. */
  datatype Op = Response(ms: nat) | Expiry | NewPacket

  function Abs(x: real): real { if x < 0.0 then -x else x }

  function Clamp(rto: real): (r: real)
    ensures 2.0 <= r <= 60.0
    ensures 2.0 <= rto <= 60.0 ==> r == rto
    ensures rto < 2.0 ==> r == 2.0
    ensures rto > 60.0 ==> r == 60.0
  {
    if rto < RXT_MIN then RXT_MIN else if rto > RXT_MAX then RXT_MAX else rto
  }

  function Timer(srtt: real, rttvar: real): real { Clamp(srtt + 4.0 * rttvar) }

  /** Rule 2.3 of RFC 6298: both averages use the SRTT from before the sample. */
  function Sampled(e: Estimate, rtt: real): Estimate {
    var rttvar := (1.0 - 0.25) * e.rttvar + 0.25 * Abs(e.srtt - rtt);
    var srtt := (1.0 - 0.125) * e.srtt + 0.125 * rtt;
    Estimate(srtt, rttvar, Timer(srtt, rttvar), e.nrexmt)
  }

  function Seconds(ms: nat): real { ms as real / 1000.0 }

  function Apply(e: Estimate, op: Op): Estimate {
    match op
    case Response(ms) => Sampled(e, Seconds(ms))
    case Expiry => e.(rto := e.rto * 2.0, nrexmt := e.nrexmt + 1)
    case NewPacket => e.(nrexmt := 0)
  }

  predicate GivesUp(e: Estimate) { Apply(e, Expiry).nrexmt > MAX_NREXMT }

  function Run(e: Estimate, ops: seq<Op>): Estimate {
    if ops == [] then e else Apply(Run(e, ops[..|ops| - 1]), ops[|ops| - 1])
  }

  class RttInfo {
    var rtt: real
    var srtt: real
    var rttvar: real
    var rto: real
    var nrexmt: int

    ghost function View(): Estimate
      reads this
    {
      Estimate(srtt, rttvar, rto, nrexmt)
    }

    /** Leaves the retransmission count alone, as the program does. */
    method Init()
      modifies this
      ensures View() == Estimate(0.0, 0.75, 3.0, old(nrexmt))
    {
      rtt := 0.0;
      srtt := 0.0;
      rttvar := 0.75;
      rto := Clamp(srtt + 4.0 * rttvar);
    }

    method NewPack()
      modifies this
      ensures View() == Apply(old(View()), NewPacket)
      ensures nrexmt == 0 && srtt == old(srtt) && rttvar == old(rttvar) && rto == old(rto)
    {
      nrexmt := 0;
    }

    /** The alarm value: a timer that is not negative rounded to the nearest second, halves up. */
    method Start() returns (seconds: int)
      ensures rto >= 0.0 ==> seconds as real - 0.5 <= rto < seconds as real + 0.5
      ensures rto < 0.0 ==> rto + 0.5 - 1.0 < seconds as real < rto + 0.5 + 1.0 && seconds <= 0
    {
      var x := rto + 0.5;
      seconds := if x < 0.0 then -(-x).Floor else x.Floor;
    }

    method Stop(ms: nat)
      modifies this
      ensures View() == Apply(old(View()), Response(ms))
      ensures 1000.0 * rtt == ms as real
      ensures 8000.0 * srtt == 7000.0 * old(srtt) + ms as real
      ensures 4000.0 * rttvar == 3000.0 * old(rttvar) + Abs(ms as real - 1000.0 * old(srtt))
      ensures rto == Clamp(srtt + 4.0 * rttvar) && nrexmt == old(nrexmt)
    {
      rtt := ms as real / 1000.0;
      var delta := rtt - srtt;
      srtt := srtt + delta / 8.0;
      if delta < 0.0 {
        delta := -delta;
      }
      rttvar := rttvar + (delta - rttvar) / 4.0;
      rto := Clamp(srtt + 4.0 * rttvar);
    }

    method Timeout() returns (r: int)
      modifies this
      ensures View() == Apply(old(View()), Expiry)
      ensures rto == 2.0 * old(rto) && nrexmt == old(nrexmt) + 1 && srtt == old(srtt) && rttvar == old(rttvar)
      ensures r == if old(nrexmt) >= 3 then -1 else 0
    {
      rto := rto * 2.0;
      nrexmt := nrexmt + 1;
      r := if nrexmt > MAX_NREXMT then -1 else 0;
    }
  }

  // ---------------------------------------------------------------- convergence

  /** x (7/8)^k */
  function Decayed(x: real, k: nat): real {
    if k == 0 then x else 0.875 * Decayed(x, k - 1)
  }

  function Power(q: real, k: nat): real { if k == 0 then 1.0 else q * Power(q, k - 1) }

  lemma {:induction false} DecayedIsGeometric(x: real, k: nat)
    ensures Decayed(x, k) == x * Power(0.875, k)
  {
    if k > 0 {
      DecayedIsGeometric(x, k - 1);
      assert x * (0.875 * Power(0.875, k - 1)) == 0.875 * (x * Power(0.875, k - 1));
    }
  }

  lemma {:induction false} DecayedSum(v: real, d: real, k: nat)
    ensures Decayed(v + 2.0 * d, k) == Decayed(v, k) + 2.0 * Decayed(d, k)
    ensures Decayed(4.0 * v + 9.0 * d, k) == 4.0 * Decayed(v + 2.0 * d, k) + Decayed(d, k)
    ensures v >= 0.0 ==> Decayed(v, k) >= 0.0
  {
    if k > 0 {
      DecayedSum(v, d, k - 1);
    }
  }

  function Samples(e: Estimate, c: real, k: nat): Estimate {
    if k == 0 then e else Sampled(Samples(e, c, k - 1), c)
  }

  /** A clamp never moves two points apart. */
  lemma ClampContracts(x: real, y: real)
    ensures Abs(Clamp(x) - Clamp(y)) <= Abs(x - y)
  {}

  lemma {:induction false} SmoothedConverges(e: Estimate, c: real, k: nat)
    ensures Abs(Samples(e, c, k).srtt - c) == Decayed(Abs(e.srtt - c), k)
  {
    if k > 0 {
      SmoothedConverges(e, c, k - 1);
      assert Samples(e, c, k).srtt - c == 0.875 * (Samples(e, c, k - 1).srtt - c);
    }
  }

  lemma {:induction false} DeviationDecays(e: Estimate, c: real, k: nat)
    requires e.rttvar >= 0.0
    ensures 0.0 <= Samples(e, c, k).rttvar <= Decayed(e.rttvar + 2.0 * Abs(e.srtt - c), k)
  {
    if k > 0 {
      var d := Abs(e.srtt - c);
      DeviationDecays(e, c, k - 1);
      SmoothedConverges(e, c, k - 1);
      DecayedSum(e.rttvar, d, k - 1);
    }
  }

  /**
   With a constant round-trip time c the smoothed estimate closes on c by exactly
   7/8 a sample, the deviation decays at the same rate, and so does the distance
   of the timer from c clamped.
   */
  lemma Convergence(e: Estimate, c: real, k: nat)
    requires e.rttvar >= 0.0
    ensures var s := Samples(e, c, k); var d := Abs(e.srtt - c);
      && Abs(s.srtt - c) == Decayed(d, k)
      && 0.0 <= s.rttvar <= Decayed(e.rttvar + 2.0 * d, k)
      && (k > 0 ==> Abs(s.rto - Clamp(c)) <= Decayed(4.0 * e.rttvar + 9.0 * d, k))
  {
    var d := Abs(e.srtt - c);
    SmoothedConverges(e, c, k);
    DeviationDecays(e, c, k);
    DecayedSum(e.rttvar, d, k);
    if k > 0 {
      var s := Samples(e, c, k);
      ClampContracts(s.srtt + 4.0 * s.rttvar, c);
    }
  }

  // ---------------------------------------------------------------- whole runs

  function Pow2(k: nat): (p: real)
    ensures p >= 1.0
  {
    if k == 0 then 1.0 else 2.0 * Pow2(k - 1)
  }

  /** Expiries since the last response. */
  function Backoffs(ops: seq<Op>): nat {
    if ops == [] || ops[|ops| - 1].Response? then 0
    else Backoffs(ops[..|ops| - 1]) + if ops[|ops| - 1].Expiry? then 1 else 0
  }

  /** Expiries since the last new packet. */
  function Resends(ops: seq<Op>): nat {
    if ops == [] || ops[|ops| - 1].NewPacket? then 0
    else Resends(ops[..|ops| - 1]) + if ops[|ops| - 1].Expiry? then 1 else 0
  }

  function Max(x: real, y: real): real { if x < y then y else x }

  ghost predicate SamplesBelow(ops: seq<Op>, m: real) {
    forall i :: 0 <= i < |ops| && ops[i].Response? ==> ops[i].ms as real <= 1000.0 * m
  }

  ghost predicate Bounded(e: Estimate, m: real, backoffs: nat) {
    && 0.0 <= e.srtt <= m
    && 0.0 <= e.rttvar <= Max(0.75, m)
    && e.rto == Pow2(backoffs) * Clamp(e.srtt + 4.0 * e.rttvar)
    && e.rto >= 2.0
    && (backoffs == 0 ==> e.rto <= 60.0)
  }

  lemma StepBounds(e: Estimate, op: Op, m: real, backoffs: nat)
    requires m >= 0.0 && Bounded(e, m, backoffs)
    requires op.Response? ==> op.ms as real <= 1000.0 * m
    ensures Bounded(Apply(e, op), m, if op.Response? then 0 else if op.Expiry? then backoffs + 1 else backoffs)
  {
    match op
    case Response(ms) =>
      SampledBounds(e, Seconds(ms), m);
    case Expiry =>
      DoubleOut(Pow2(backoffs), Timer(e.srtt, e.rttvar));
    case NewPacket =>
  }

  lemma SampledBounds(e: Estimate, rtt: real, m: real)
    requires 0.0 <= e.srtt <= m && 0.0 <= e.rttvar <= Max(0.75, m) && 0.0 <= rtt <= m
    ensures Bounded(Sampled(e, rtt), m, 0)
  {
    var s := Sampled(e, rtt);
    assert Abs(e.srtt - rtt) <= m;
    assert Pow2(0) == 1.0;
  }

  lemma DoubleOut(p: real, t: real)
    ensures (2.0 * p) * t == (p * t) * 2.0
  {}

  /**
   Every run of the timer from `Init`: the averages stay within the samples, the
   timer is the clamped formula doubled once per expiry since the last response
   (and never clamped again), and so never falls below the minimum.
   */
  lemma {:induction false} RunBounds(nrexmt: int, ops: seq<Op>, m: real)
    requires m >= 0.0 && SamplesBelow(ops, m)
    ensures Bounded(Run(Estimate(0.0, 0.75, 3.0, nrexmt), ops), m, Backoffs(ops))
  {
    if ops != [] {
      var front := ops[..|ops| - 1];
      RunBounds(nrexmt, front, m);
      var e := Run(Estimate(0.0, 0.75, 3.0, nrexmt), front);
      StepBounds(e, ops[|ops| - 1], m, Backoffs(front));
    }
  }

  /**
   The timer that starts a packet with a fresh count gives up on exactly the
   fourth expiry, whatever responses arrive in between.
   */
  lemma {:induction false} RetransmitBudget(e: Estimate, ops: seq<Op>)
    requires e.nrexmt == 0
    ensures Run(e, ops).nrexmt == Resends(ops)
    ensures GivesUp(Run(e, ops)) <==> Resends(ops) >= 3
  {
    if ops != [] {
      RetransmitBudget(e, ops[..|ops| - 1]);
    }
  }

  /** The alarm value is never below two seconds, in any run. */
  lemma AlarmNeverBelowMinimum(nrexmt: int, ops: seq<Op>, m: real, seconds: int)
    requires m >= 0.0 && SamplesBelow(ops, m)
    requires var rto := Run(Estimate(0.0, 0.75, 3.0, nrexmt), ops).rto; seconds as real - 0.5 <= rto < seconds as real + 0.5
    ensures seconds >= 2
  {
    RunBounds(nrexmt, ops, m);
  }
}
