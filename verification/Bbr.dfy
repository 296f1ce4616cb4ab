/** The congestion control of src/udx_bbr.c: its phases and its window, for every bandwidth estimate the filter may
    give and every count of packets in flight. Rates are reals; a conversion to an integer rounds down. */
module Bbr {
  import opened SeqArith
  import Sending

  datatype Phase = Startup | Drain | ProbeBw | ProbeRtt

  /** `udx_rate_sample_t`. */
  datatype Sample = Sample(priorDelivered: nat, delivered: int, intervalMs: int, rttMs: int, losses: nat,
                           acked: nat, appLimited: bool, ackDelayed: bool)

  /** What the stream contributes: the clock, `delivered_ts`, `delivered`, the length of the in-flight queue,
      `ca_state`, and what the bandwidth filter says once it has seen the sample. */
  datatype Env = Env(now: nat, deliveredTs: nat, delivered: nat, inflight: nat, ca: Sending.CaState, filtered: real)

  const CYCLE_LEN: nat := 8
  const MIN_RTT_INTERVAL_MS: nat := 10000
  const PROBE_RTT_MODE_MS: nat := 200
  const HIGH_GAIN: real := 2.88539
  const CWND_MIN_TARGET: nat := 4
  const FULL_BW_THRESH: real := 1.25
  const FULL_BW_COUNT: nat := 3
  const EXTRA_ACKED_WIN_RTTS: nat := 5
  const EXTRA_ACKED_MAX_MS: real := 100.0
  const NO_RTT: nat := 0xFFFF_FFFF

  function Max(a: int, b: int): int { if a < b then b else a }

  function Min(a: int, b: int): int { if a < b then a else b }

  function PacingGain(index: nat): real {
    if index == 0 then 1.25 else if index == 1 then 0.75 else 1.0
  }

  /** `bbr_bdp`. */
  function Bdp(bw: real, minRttMs: nat, gain: real): nat
    requires bw >= 0.0 && gain >= 0.0
  {
    if minRttMs == NO_RTT then 10 else Max((bw * (minRttMs as real) * gain).Floor, 1)
  }

  /** What bears on full bandwidth: a round that the application did not limit, with the estimate at its start,
      or a timeout, after which growth is measured anew. */
  datatype Event = Round(bw: real) | Timeout

  /** The estimate that growth is measured from. */
  function Level(events: seq<Event>): real {
    if events == [] then 0.0
    else
      var m := |events| - 1;
      match events[m]
      case Timeout => 0.0
      case Round(bw) => if bw >= Level(events[..m]) * FULL_BW_THRESH then bw else Level(events[..m])
  }

  /** Round `i` did not raise the estimate by a quarter. */
  predicate Slow(events: seq<Event>, i: nat) {
    i < |events| && events[i].Round? && events[i].bw < Level(events[..i]) * FULL_BW_THRESH
  }

  /** How many rounds there have been without growth since the last one with growth. */
  function Stalled(events: seq<Event>): nat {
    if events == [] then 0
    else
      var m := |events| - 1;
      if events[m].Timeout? then Stalled(events[..m]) else if Slow(events, m) then Stalled(events[..m]) + 1 else 0
  }

  /** That many rounds ago the estimate did not grow, and it has not since. */
  lemma {:induction false} NoGrowthSince(events: seq<Event>, n: nat) returns (i: nat)
    requires 1 <= n <= Stalled(events)
    ensures Slow(events, i) && Stalled(events[..i]) + n == Stalled(events)
    ensures forall k :: i <= k < |events| && events[k].Round? ==> Slow(events, k)
    decreases |events|
  {
    var m := |events| - 1;
    if n == 1 && events[m].Round? {
      i := m;
    } else {
      i := NoGrowthSince(events[..m], if events[m].Round? then n - 1 else n);
      assert events[..m][..i] == events[..i];
      forall k | i <= k < |events| && events[k].Round?
        ensures Slow(events, k)
      {
        if k < m {
          assert events[..m][k] == events[k] && events[..m][..k] == events[..k];
          assert Slow(events[..m], k);
        }
      }
    }
  }

  class Controller {
    var cwnd: nat
    var phase: Phase
    var bw: real
    var minRttMs: nat
    var minRttStamp: nat
    var probeRttDoneTime: nat
    var probeRttRoundDone: bool
    var rttCount: nat
    var nextRttDelivered: nat
    var cycleTimestamp: nat
    var cycleIndex: nat
    var prevCa: Sending.CaState
    var packetConservation: bool
    var roundStart: bool
    var idleRestart: bool
    var pacingGain: real
    var cwndGain: real
    var fullBw: real
    var fullBwReached: bool
    var fullBwCount: nat
    var priorCwnd: nat
    var ackEpochStart: nat
    var ackEpochAcked: nat
    var extraAcked0: nat
    var extraAcked1: nat
    var extraAckedWinRtts: nat
    var extraAckedSecond: bool     // extra_acked_win_index
    ghost var entryCwnd: nat       // the window on entering the present or last PROBE_RTT
    ghost var lowSince: nat        // when at most four packets were first seen in flight in it
    ghost var events: seq<Event>   // the whole history, until full bandwidth is reached

    ghost predicate Base()
      reads `cwnd, `phase, `fullBwReached, `priorCwnd, `entryCwnd, `probeRttDoneTime, `lowSince, `cycleIndex, `fullBwCount,
            `ackEpochAcked, `extraAcked0, `extraAcked1, `bw, `cwndGain, `pacingGain, `fullBw, `events
    {
      && cwnd >= 1
      && (phase.Drain? || phase.ProbeBw? ==> fullBwReached)
      && (phase.ProbeRtt? ==> priorCwnd >= entryCwnd)
      && (phase.ProbeRtt? && probeRttDoneTime != 0 ==> probeRttDoneTime == lowSince + PROBE_RTT_MODE_MS)
      && cycleIndex < CYCLE_LEN && fullBw == Level(events) && fullBwCount == Stalled(events)
      && (fullBwReached <==> Stalled(events) >= FULL_BW_COUNT)
      && ackEpochAcked < 0x1_0000_0000 && extraAcked0 < 0x1_0000 && extraAcked1 < 0x1_0000
      && bw >= 0.0 && cwndGain >= 0.0 && pacingGain >= 0.0 && fullBw >= 0.0
    }

    /** STARTUP is the phase until full bandwidth is reached, and never again; the window is never closed; and
        what PROBE_RTT will restore is at least the window it was entered with. */
    ghost predicate Valid()
      reads `cwnd, `phase, `fullBwReached, `priorCwnd, `entryCwnd, `probeRttDoneTime, `lowSince, `cycleIndex, `fullBwCount,
            `ackEpochAcked, `extraAcked0, `extraAcked1, `bw, `cwndGain, `pacingGain, `fullBw, `events
    {
      Base() && (phase.Startup? ==> !fullBwReached)
    }

    lemma NotStartup()
      requires Valid()
      ensures fullBwReached ==> !phase.Startup?
    {
    }

    /** `bbr_init`, on a stream whose window is 10. */
    constructor (now: nat, delivered: nat)
      ensures Valid() && cwnd == 10 && phase.Startup?
    {
      cwnd, phase, bw, minRttMs, minRttStamp := 10, Startup, 0.0, NO_RTT, now;
      probeRttDoneTime, probeRttRoundDone, rttCount, nextRttDelivered := 0, false, 0, delivered;
      cycleTimestamp, cycleIndex, prevCa, packetConservation := 0, 0, Sending.CaState.Open, false;
      roundStart, idleRestart, pacingGain, cwndGain := false, false, 0.0, 0.0;
      fullBw, fullBwReached, fullBwCount, priorCwnd := 0.0, false, 0, 0;
      ackEpochStart, ackEpochAcked, extraAcked0, extraAcked1 := now, 0, 0, 0;
      extraAckedWinRtts, extraAckedSecond, events := 0, false, [];
    }

    // ---------- the model ----------

    /** `bbr_update_bw`. The sample is not zero, as the source asserts, when packets have been delivered. */
    method UpdateBw(rs: Sample, env: Env)
      requires Valid() && env.filtered >= 0.0 && (rs.delivered == 0 ==> rs.intervalMs <= 0)
      modifies `roundStart, `nextRttDelivered, `rttCount, `packetConservation, `bw
      ensures Valid()
      ensures roundStart <==>
                rs.delivered > 0 && rs.intervalMs > 0 && SeqDiff(U32(rs.priorDelivered), U32(old(nextRttDelivered))) >= 0
      ensures rttCount == old(rttCount) + if roundStart then 1 else 0
    {
      hide SeqDiff, U32, Level, Stalled, Slow;
      roundStart := false;
      if rs.delivered < 0 || rs.intervalMs <= 0 {
        return;
      }
      if SeqDiff(U32(rs.priorDelivered), U32(nextRttDelivered)) >= 0 {
        nextRttDelivered := env.delivered;
        rttCount := rttCount + 1;
        roundStart := true;
        packetConservation := false;
      }
      SampleNotZero(rs.delivered, rs.intervalMs);
      var sample := rs.delivered as real / rs.intervalMs as real;
      assert sample != 0.0;
      if !rs.appLimited || sample >= bw {
        bw := env.filtered;
      }
    }

    method RotateExtraAcked()
      requires Valid()
      modifies `extraAckedWinRtts, `extraAckedSecond, `extraAcked0, `extraAcked1
      ensures Valid()
    {
      extraAckedWinRtts := Min(0xFF, extraAckedWinRtts + 1);
      if extraAckedWinRtts >= EXTRA_ACKED_WIN_RTTS {
        extraAckedWinRtts := 0;
        extraAckedSecond := !extraAckedSecond;
        if extraAckedSecond {
          extraAcked1 := 0;
        } else {
          extraAcked0 := 0;
        }
      }
    }

    /** The epoch is restarted if it has fallen behind the estimate, or if its counter would overflow; then the
        acknowledged packets are added. */
    method CountAcked(acked: nat, env: Env) returns (extra: nat)
      requires Valid() && 0 < acked < 0x1_0000_0000
      modifies `ackEpochAcked, `ackEpochStart
      ensures Valid() && 0 < extra <= ackEpochAcked
      ensures ackEpochAcked == acked || ackEpochAcked == old(ackEpochAcked) + acked < NO_RTT
    {
      var epochMs := U32(env.deliveredTs - ackEpochStart);
      var expected := (bw * epochMs as real).Floor;
      if ackEpochAcked <= expected || ackEpochAcked + acked >= NO_RTT {
        ackEpochAcked := 0;
        ackEpochStart := env.deliveredTs;
        expected := 0;
      }
      SmallU32(ackEpochAcked + acked);
      SmallU32(ackEpochAcked + acked - expected);
      assert U32(ackEpochAcked + acked) > ackEpochAcked;
      ackEpochAcked := U32(ackEpochAcked + acked);
      extra := U32(ackEpochAcked - expected);
      assert extra == ackEpochAcked - expected;
    }

    method StoreExtraAcked(extra: nat)
      requires Valid()
      modifies `extraAcked0, `extraAcked1
      ensures Valid()
    {
      if extraAckedSecond {
        if extra > extraAcked1 {
          extraAcked1 := extra % 0x1_0000;
        }
      } else if extra > extraAcked0 {
        extraAcked0 := extra % 0x1_0000;
      }
    }

    /** `bbr_update_ack_aggregation`: neither the sum nor the difference of its 32-bit counters wraps. The estimate
        is stored in 16 bits. */
    method UpdateAckAggregation(rs: Sample, env: Env)
      requires Valid() && rs.acked < 0x1_0000_0000
      modifies `extraAckedWinRtts, `extraAckedSecond, `extraAcked0, `extraAcked1, `ackEpochAcked, `ackEpochStart
      ensures Valid()
      ensures rs.acked > 0 && rs.delivered >= 0 && rs.intervalMs > 0 ==>
                ackEpochAcked == rs.acked || ackEpochAcked == old(ackEpochAcked) + rs.acked < NO_RTT
    {
      hide Valid, Base;
      if rs.acked == 0 || rs.delivered < 0 || rs.intervalMs <= 0 {
        return;
      }
      if roundStart {
        RotateExtraAcked();
      }
      var extra := CountAcked(rs.acked, env);
      StoreExtraAcked(Min(extra, cwnd));
    }

    method AdvanceCyclePhase(env: Env)
      requires Base()
      modifies `cycleIndex, `cycleTimestamp
      ensures Base() && cycleIndex == (old(cycleIndex) + 1) % CYCLE_LEN
    {
      cycleIndex := (cycleIndex + 1) % CYCLE_LEN;
      cycleTimestamp := env.deliveredTs;
    }

    /** `bbr_is_next_cycle_phase`. */
    predicate IsNextCyclePhase(rs: Sample, env: Env)
      requires bw >= 0.0 && pacingGain >= 0.0
      reads this
    {
      var full := U32(env.deliveredTs - cycleTimestamp) > minRttMs;
      if pacingGain == 1.0 then full
      else if pacingGain > 1.0 then full && (rs.losses > 0 || env.inflight > Bdp(bw, minRttMs, pacingGain))
      else full || env.inflight <= Bdp(bw, minRttMs, 1.0)
    }

    method UpdateCyclePhase(rs: Sample, env: Env)
      requires Valid()
      modifies `cycleIndex, `cycleTimestamp
      ensures Valid()
    {
      if phase.ProbeBw? && IsNextCyclePhase(rs, env) {
        AdvanceCyclePhase(env);
      }
    }

    /** `bbr_check_full_bw_reached`: full bandwidth is reached once three rounds that the application did not limit have
        gone by without raising the estimate by a quarter, none having raised it in between; see NoGrowthSince. */
    method CheckFullBwReached(rs: Sample)
      requires Valid()
      modifies `fullBw, `fullBwCount, `fullBwReached, `events
      ensures Base() && (old(fullBwReached) ==> fullBwReached)
      ensures events == if old(fullBwReached) || !roundStart || rs.appLimited then old(events) else old(events) + [Round(bw)]
      ensures fullBwReached <==> Stalled(events) >= FULL_BW_COUNT
    {
      if fullBwReached || !roundStart || rs.appLimited {
        return;
      }
      EventMore(events, Round(bw));
      events := events + [Round(bw)];
      if bw >= fullBw * FULL_BW_THRESH {
        fullBw := bw;
        fullBwCount := 0;
        return;
      }
      fullBwCount := fullBwCount + 1;
      fullBwReached := fullBwCount >= FULL_BW_COUNT;
    }

    method ResetProbeBwMode(env: Env)
      requires Base() && fullBwReached
      modifies `phase, `cycleIndex, `cycleTimestamp
      ensures Valid() && phase.ProbeBw?
    {
      phase := ProbeBw;
      cycleIndex := 3;
      AdvanceCyclePhase(env);
    }

    /** `bbr_check_drain`. */
    method CheckDrain(env: Env)
      requires Base()
      modifies `phase, `cycleIndex, `cycleTimestamp
      ensures Valid()
      ensures phase == old(phase) || (fullBwReached && old(phase).Startup? && (phase.Drain? || phase.ProbeBw?))
              || (old(phase).Drain? && phase.ProbeBw?)
      ensures phase.Drain? ==> env.inflight > Bdp(bw, minRttMs, 1.0)
    {
      if phase.Startup? && fullBwReached {
        phase := Drain;
      }
      if phase.Drain? && env.inflight <= Bdp(bw, minRttMs, 1.0) {
        ResetProbeBwMode(env);
      }
    }

    /** `bbr_check_probe_rtt_done`: PROBE_RTT ends once it has lasted, and restores at least the window it began with. */
    method CheckProbeRttDone(env: Env)
      requires Valid() && phase.ProbeRtt?
      modifies `minRttStamp, `cwnd, `phase, `cycleIndex, `cycleTimestamp
      ensures Valid()
      ensures phase.ProbeRtt? <==> !(probeRttDoneTime != 0 && env.now > lowSince + PROBE_RTT_MODE_MS)
      ensures phase.ProbeRtt? ==> cwnd == old(cwnd)
      ensures !phase.ProbeRtt? ==> cwnd >= old(cwnd) && cwnd >= entryCwnd && phase == if fullBwReached then ProbeBw else Startup
    {
      if !(probeRttDoneTime != 0 && env.now > probeRttDoneTime) {
        return;
      }
      minRttStamp := env.now;
      cwnd := Max(cwnd, priorCwnd);
      if !fullBwReached {
        phase := Startup;
      } else {
        ResetProbeBwMode(env);
      }
    }

    /** `bbr_save_cwnd`, called on entering recovery, on a timeout and on entering PROBE_RTT. */
    method SaveCwnd()
      modifies `priorCwnd
      ensures priorCwnd == if prevCa.Open? && !phase.ProbeRtt? then cwnd else Max(old(priorCwnd), cwnd)
      ensures old(Valid()) ==> Valid()
    {
      if prevCa.Open? && !phase.ProbeRtt? {
        priorCwnd := cwnd;
      } else {
        priorCwnd := Max(priorCwnd, cwnd);
      }
    }

    method UpdateEstimate(rs: Sample, env: Env) returns (expired: bool)
      requires Valid()
      modifies `minRttMs, `minRttStamp
      ensures Valid() && expired == (env.now > old(minRttStamp) + MIN_RTT_INTERVAL_MS)
    {
      expired := env.now > minRttStamp + MIN_RTT_INTERVAL_MS;
      if rs.rttMs >= 0 && (rs.rttMs < minRttMs || (expired && !rs.ackDelayed)) {
        minRttMs := if rs.rttMs != 0 then rs.rttMs else 1;
        minRttStamp := env.now;
      }
    }

    method EnterProbeRtt()
      requires Valid() && !phase.ProbeRtt?
      modifies `phase, `priorCwnd, `probeRttDoneTime, `entryCwnd
      ensures Valid() && phase.ProbeRtt? && entryCwnd == cwnd && probeRttDoneTime == 0
    {
      phase := ProbeRtt;
      entryCwnd := cwnd;
      probeRttDoneTime := 0;
      SaveCwnd();
    }

    method StayInProbeRtt(env: Env)
      requires Valid() && phase.ProbeRtt?
      modifies `minRttStamp, `phase, `probeRttDoneTime, `probeRttRoundDone, `nextRttDelivered, `cwnd, `cycleIndex,
               `cycleTimestamp, `lowSince
      ensures Valid() && cwnd >= old(cwnd)
      ensures !phase.ProbeRtt? ==>
                && old(probeRttDoneTime) != 0 && env.now > old(lowSince) + PROBE_RTT_MODE_MS
                && (old(probeRttRoundDone) || roundStart)
                && cwnd >= entryCwnd && phase == if fullBwReached then ProbeBw else Startup
      ensures phase.ProbeRtt? ==> cwnd == old(cwnd)
    {
      if probeRttDoneTime == 0 && env.inflight <= CWND_MIN_TARGET {
        probeRttDoneTime := env.now + PROBE_RTT_MODE_MS;
        lowSince := env.now;
        probeRttRoundDone := false;
        nextRttDelivered := env.delivered;
      } else if probeRttDoneTime != 0 {
        if roundStart {
          probeRttRoundDone := true;
        }
        if probeRttRoundDone {
          CheckProbeRttDone(env);
        }
      }
    }

    /** `bbr_update_min_rtt`. PROBE_RTT is entered when the estimate is ten seconds old, and left by an acknowledgement
        only 200 ms after at most four packets were in flight and after a round trip since. */
    method UpdateMinRtt(rs: Sample, env: Env)
      requires Valid()
      modifies `minRttMs, `minRttStamp, `phase, `priorCwnd, `probeRttDoneTime, `probeRttRoundDone, `nextRttDelivered,
               `cwnd, `cycleIndex, `cycleTimestamp, `idleRestart, `entryCwnd, `lowSince
      ensures Valid() && cwnd >= old(cwnd)
      ensures !old(phase).ProbeRtt? && !phase.ProbeRtt? ==> phase == old(phase) && cwnd == old(cwnd)
      ensures !old(phase).ProbeRtt? && phase.ProbeRtt? ==>
                env.now > old(minRttStamp) + MIN_RTT_INTERVAL_MS && entryCwnd == old(cwnd)
      ensures old(phase).ProbeRtt? && !phase.ProbeRtt? ==>
                && env.now > old(lowSince) + PROBE_RTT_MODE_MS && (old(probeRttRoundDone) || roundStart)
                && cwnd >= old(entryCwnd) && phase == if fullBwReached then ProbeBw else Startup
    {
      hide Valid, Base;
      var expired := UpdateEstimate(rs, env);
      if expired && !idleRestart && !phase.ProbeRtt? {
        EnterProbeRtt();
      }
      if phase.ProbeRtt? {
        StayInProbeRtt(env);
      }
      if rs.delivered > 0 {
        idleRestart := false;
      }
    }

    method UpdateGains()
      requires Valid()
      modifies `pacingGain, `cwndGain
      ensures Valid()
    {
      match phase {
        case Startup => pacingGain, cwndGain := HIGH_GAIN, HIGH_GAIN;
        case Drain => pacingGain, cwndGain := 1.0 / HIGH_GAIN, HIGH_GAIN;
        case ProbeBw => pacingGain, cwndGain := PacingGain(cycleIndex), 2.0;
        case ProbeRtt => pacingGain, cwndGain := 1.0, 1.0;
      }
    }

    // ---------- the window ----------

    lemma CwndOpen()
      requires Valid()
      ensures cwnd >= 1
    {
    }

    /** `bbr_set_cwnd_to_recover_or_restore`. */
    method RecoverOrRestore(rs: Sample, env: Env) returns (done: bool, w: nat)
      requires Valid() && rs.acked > 0
      modifies `packetConservation, `nextRttDelivered, `prevCa
      ensures Valid() && w >= 1 && prevCa == env.ca
      ensures w <= Max(Max(cwnd, priorCwnd), env.inflight + rs.acked)
      ensures done == packetConservation && (done ==> w >= env.inflight + rs.acked)
      ensures env.ca.Recovery? && !old(prevCa).Recovery? ==> done && w == env.inflight + rs.acked
      ensures env.ca.Open? && !old(prevCa).Open? ==> !done && w >= priorCwnd
    {
      hide Base;
      CwndOpen();
      w := cwnd;
      if rs.losses > 0 {
        w := Max(w - rs.losses, 1);
      }
      if env.ca.Recovery? && !prevCa.Recovery? {
        packetConservation := true;
        nextRttDelivered := env.delivered;
        w := env.inflight + rs.acked;
      } else if !prevCa.Open? && env.ca.Open? {
        w := Max(w, priorCwnd);
        packetConservation := false;
      }
      prevCa := env.ca;
      if packetConservation {
        return true, Max(w, env.inflight + rs.acked);
      }
      return false, w;
    }

    /** `bbr_ack_aggregation_cwnd`. */
    function AggregationCwnd(): nat
      requires bw >= 0.0
      reads `fullBwReached, `extraAcked0, `extraAcked1, `bw
    {
      if fullBwReached then Min(Max(extraAcked0, extraAcked1), (bw * EXTRA_ACKED_MAX_MS).Floor) else 0
    }

    method TargetCwnd(rs: Sample, env: Env) returns (w: nat)
      requires Valid() && rs.acked > 0
      modifies `packetConservation, `nextRttDelivered, `prevCa
      ensures Valid() && w >= 1
      ensures w <= Max(Max(Max(cwnd, priorCwnd), env.inflight + rs.acked) + rs.acked, CWND_MIN_TARGET)
      ensures if packetConservation then w >= env.inflight + rs.acked else w >= CWND_MIN_TARGET
      ensures !packetConservation && fullBwReached ==>
                w <= Max(Bdp(bw, minRttMs, cwndGain) + AggregationCwnd(), CWND_MIN_TARGET)
    {
      hide Bdp, AggregationCwnd;
      var done;
      done, w := RecoverOrRestore(rs, env);
      if !done {
        var target := Bdp(bw, minRttMs, cwndGain) + AggregationCwnd();
        if fullBwReached {
          w := Min(w + rs.acked, target);
        } else if w < target || env.delivered < 10 {
          w := w + rs.acked;
        }
        w := Max(w, CWND_MIN_TARGET);
      }
    }

    /** `bbr_set_cwnd`. An acknowledgement of `p` packets raises the window by at most `p`, or to what was saved, to
        what is in flight and `p` more, or to four; in PROBE_RTT the window is at most four. */
    method SetCwnd(rs: Sample, env: Env)
      requires Valid()
      modifies `cwnd, `packetConservation, `nextRttDelivered, `prevCa
      ensures Valid()
      ensures cwnd <= Max(Max(Max(old(cwnd), priorCwnd), env.inflight + rs.acked) + rs.acked, CWND_MIN_TARGET)
      ensures phase.ProbeRtt? ==> cwnd <= CWND_MIN_TARGET
      ensures rs.acked == 0 && !phase.ProbeRtt? ==> cwnd == old(cwnd)
      ensures rs.acked > 0 && !packetConservation ==> cwnd >= CWND_MIN_TARGET
      ensures rs.acked > 0 && !packetConservation && fullBwReached ==>
                cwnd <= Max(Bdp(bw, minRttMs, cwndGain) + AggregationCwnd(), CWND_MIN_TARGET)
      ensures rs.acked > 0 && packetConservation && !phase.ProbeRtt? ==> cwnd >= env.inflight + rs.acked
    {
      hide AggregationCwnd, Bdp;
      var w := cwnd;
      if rs.acked > 0 {
        w := TargetCwnd(rs, env);
      }
      cwnd := w;
      assert cwnd > 0;
      if phase.ProbeRtt? {
        cwnd := Min(cwnd, CWND_MIN_TARGET);
      }
    }

    // ---------- what the stream calls ----------

    /** The bandwidth half of `bbr_update_model`. */
    method UpdateBandwidth(rs: Sample, env: Env)
      requires Valid() && env.filtered >= 0.0 && (rs.delivered == 0 ==> rs.intervalMs <= 0) && rs.acked < 0x1_0000_0000
      modifies `roundStart, `nextRttDelivered, `rttCount, `packetConservation, `bw, `extraAckedWinRtts, `extraAckedSecond,
               `extraAcked0, `extraAcked1, `ackEpochAcked, `ackEpochStart, `cycleIndex, `cycleTimestamp, `fullBw,
               `fullBwCount, `fullBwReached, `events
      ensures Base() && (old(fullBwReached) ==> fullBwReached)
    {
      hide *;
      UpdateBw(rs, env);
      UpdateAckAggregation(rs, env);
      UpdateCyclePhase(rs, env);
      CheckFullBwReached(rs);
    }

    /** `bbr_update_model`. */
    method UpdateModel(rs: Sample, env: Env)
      requires Valid() && env.filtered >= 0.0 && (rs.delivered == 0 ==> rs.intervalMs <= 0) && rs.acked < 0x1_0000_0000
      modifies this
      ensures Valid() && (old(fullBwReached) ==> fullBwReached) && cwnd >= old(cwnd)
      ensures PhaseStep(old(phase), phase, fullBwReached)
      ensures old(phase).ProbeRtt? && !phase.ProbeRtt? ==>
                && env.now > old(lowSince) + PROBE_RTT_MODE_MS && (old(probeRttRoundDone) || roundStart)
                && cwnd >= old(entryCwnd)
      ensures !old(phase).ProbeRtt? && phase.ProbeRtt? ==>
                env.now > old(minRttStamp) + MIN_RTT_INTERVAL_MS && entryCwnd == old(cwnd)
    {
      hide *;
      UpdateBandwidth(rs, env);
      CheckDrain(env);
      ghost var between := phase;
      UpdateMinRtt(rs, env);
      Follows(old(phase), between, phase, fullBwReached);
      UpdateGains();
    }

    /** `bbr_main`, after every acknowledgement. */
    method OnAck(rs: Sample, env: Env)
      requires Valid() && env.filtered >= 0.0 && (rs.delivered == 0 ==> rs.intervalMs <= 0) && rs.acked < 0x1_0000_0000
      modifies this
      ensures Valid() && (old(fullBwReached) ==> fullBwReached)
      ensures PhaseStep(old(phase), phase, fullBwReached)
      ensures phase.ProbeRtt? ==> cwnd <= CWND_MIN_TARGET
      ensures old(phase).ProbeRtt? && !phase.ProbeRtt? ==>
                env.now > old(lowSince) + PROBE_RTT_MODE_MS && (old(probeRttRoundDone) || roundStart)
      ensures !old(phase).ProbeRtt? && phase.ProbeRtt? ==>
                env.now > old(minRttStamp) + MIN_RTT_INTERVAL_MS && entryCwnd == old(cwnd)
    {
      hide *;
      UpdateModel(rs, env);
      SetCwnd(rs, env);
    }

    /** `bbr_on_transmit_start`, when a packet is sent and none was in flight. */
    method OnTransmitStart(appLimited: bool, env: Env)
      requires Valid()
      modifies this
      ensures Valid() && PhaseStep(old(phase), phase, fullBwReached) && fullBwReached == old(fullBwReached)
      ensures old(phase).ProbeRtt? && !phase.ProbeRtt? ==>
                env.now > old(lowSince) + PROBE_RTT_MODE_MS && cwnd >= old(entryCwnd)
      ensures !old(phase).ProbeRtt? ==> phase == old(phase) && cwnd == old(cwnd)
    {
      if appLimited {
        idleRestart := true;
        ackEpochStart := env.now;
        ackEpochAcked := 0;
        if phase.ProbeRtt? {
          CheckProbeRttDone(env);
        }
      }
    }

    /** `bbr_on_rto`. */
    method ForgetRate()
      requires Valid()
      modifies `prevCa, `fullBw, `roundStart, `events
      ensures Valid() && prevCa.Loss? && fullBw == 0.0 && roundStart && events == old(events) + [Timeout]
    {
      EventMore(events, Timeout);
      events := events + [Timeout];
      prevCa := Sending.CaState.Loss;
      fullBw := 0.0;
      roundStart := true;
    }

    /** What the timeout callback does to the window: `bbr_save_cwnd`, one packet more than is in flight, `bbr_on_rto`. */
    method OnRto(inflight: nat)
      requires Valid()
      modifies `priorCwnd, `cwnd, `prevCa, `fullBw, `roundStart, `events
      ensures Valid() && cwnd == inflight + 1 && priorCwnd >= old(cwnd)
      ensures prevCa.Loss? && fullBw == 0.0 && roundStart && events == old(events) + [Timeout]
    {
      SaveCwnd();
      cwnd := inflight + 1;
      ForgetRate();
    }
  }

  lemma EventMore(events: seq<Event>, e: Event)
    ensures Level(events + [e]) == if e.Timeout? then 0.0 else if e.bw >= Level(events) * FULL_BW_THRESH then e.bw else Level(events)
    ensures Stalled(events + [e]) ==
            if e.Timeout? then Stalled(events) else if e.bw < Level(events) * FULL_BW_THRESH then Stalled(events) + 1 else 0
  {
    assert (events + [e])[..|events|] == events;
  }

  /** The phases that can follow one another. */
  predicate PhaseStep(p: Phase, q: Phase, fullBwReached: bool) {
    match p
    case Startup => q.Startup? || q.ProbeRtt? || fullBwReached
    case Drain => !q.Startup?
    case ProbeBw => q.ProbeBw? || q.ProbeRtt?
    case ProbeRtt => q.ProbeRtt? || q == if fullBwReached then ProbeBw else Startup
  }

  lemma Follows(p: Phase, m: Phase, q: Phase, fullBwReached: bool)
    requires m == p || (fullBwReached && p.Startup? && (m.Drain? || m.ProbeBw?)) || (p.Drain? && m.ProbeBw?)
    requires q == m || q.ProbeRtt? || (m.ProbeRtt? && q == if fullBwReached then ProbeBw else Startup)
    ensures PhaseStep(p, q, fullBwReached)
  {
  }

  lemma SampleNotZero(delivered: int, intervalMs: int)
    requires delivered > 0 && intervalMs > 0
    ensures delivered as real / intervalMs as real > 0.0
  {
  }

  lemma SmallU32(x: int)
    requires 0 <= x < 0x1_0000_0000
    ensures U32(x) == x
  {
  }
}
