/** Delivery rate samples, src/udx_rate.c: what is stamped on a packet when it is sent, and the sample that the packets
    of one acknowledgement give. Module Bbr divides by the interval and asserts that the result is not zero. */
module Rate {
  import opened SeqArith
  import opened Outbox
  import Bbr
  import P = Protocol
  import Receive
  import Sending

  /** What a packet remembers from when it was last sent. */
  datatype Stamp = Stamp(firstSentTs: nat, deliveredTs: nat, delivered: nat, appLimited: bool,
                         timeSent: nat, seqno: uint32, retransmitted: bool)

  /** The fields of `udx_rate_sample_t` that the packets of an acknowledgement fill in. */
  datatype Prior = Prior(timestamp: nat, delivered: nat, intervalMs: nat, appLimited: bool, retrans: bool, seqno: uint32)

  function StampMsDelta(t1: nat, t0: nat): nat {
    U32(if t1 < t0 then 0 else t1 - t0)
  }

  class Sampler {
    var delivered: nat
    var deliveredTs: nat
    var firstSentTs: nat
    var appLimited: nat              // zero if not limited by the application
    var rateDelivered: int
    var rateIntervalMs: int
    var rateAppLimited: bool
    var stamps: map<nat, Stamp>      // of the packets in stream->outgoing, by number

    /** No packet remembers more deliveries than there have been. */
    ghost predicate Valid()
      reads this
    {
      forall n :: n in stamps ==> stamps[n].delivered <= delivered
    }

    /** The `uint32_t` differences of delivery counts are true: none is half a turn back. */
    ghost predicate Recent(more: nat)
      reads this
    {
      forall n :: n in stamps ==> delivered + more - stamps[n].delivered < TWO_31
    }

    constructor ()
      ensures Valid() && delivered == 0 && stamps == map[]
    {
      delivered, deliveredTs, firstSentTs, appLimited := 0, 0, 0, 0;
      rateDelivered, rateIntervalMs, rateAppLimited := 0, 0, false;
      stamps := map[];
    }

    /** `udx__rate_pkt_sent`, for a new packet and for one sent again. */
    method PacketSent(n: nat, idle: bool, now: nat, again: bool)
      requires Valid()
      modifies `firstSentTs, `deliveredTs, `stamps
      ensures Valid() && stamps.Keys == old(stamps).Keys + {n} && stamps == old(stamps)[n := stamps[n]]
      ensures stamps[n].delivered == delivered && stamps[n].deliveredTs == deliveredTs
      ensures idle ==> stamps[n].deliveredTs == stamps[n].firstSentTs == stamps[n].timeSent == now
    {
      if idle {
        firstSentTs := now;
        deliveredTs := now;
      }
      stamps := stamps[n := Stamp(firstSentTs, deliveredTs, delivered, appLimited != 0, now, U32(n), again)];
    }

    /** `udx__rate_pkt_delivered`. */
    method PacketDelivered(p: Stamp, rs: Prior) returns (r: Prior)
      modifies `firstSentTs
      ensures r == rs || (r.delivered == p.delivered && r.timestamp == p.deliveredTs > 0)
      ensures p.deliveredTs > 0 && U32(rs.delivered) == 0 ==>
                && r.delivered == p.delivered && r.timestamp == p.deliveredTs
                && r.intervalMs == StampMsDelta(p.timeSent, p.firstSentTs)
    {
      r := rs;
      if p.deliveredTs == 0 {
        return;
      }
      if U32(rs.delivered) == 0 || RackSentAfter(p.timeSent, p.seqno, firstSentTs, rs.seqno) {
        firstSentTs := p.timeSent;
        r := Prior(p.deliveredTs, p.delivered, StampMsDelta(firstSentTs, p.firstSentTs), p.appLimited, p.retransmitted, p.seqno);
      }
    }

    /** `udx__rate_gen`. */
    method Generate(acked: nat, lost: nat, now: nat, rttMin: nat, rttMs: int, rs: Prior) returns (s: Bbr.Sample)
      requires rs.timestamp > 0 ==> 0 <= delivered - rs.delivered < TWO_31
      modifies `appLimited, `deliveredTs, `rateDelivered, `rateIntervalMs, `rateAppLimited
      ensures s.acked == acked && s.losses == lost && s.rttMs == rttMs
      ensures s.delivered == if rs.timestamp == 0 then -1 else delivered - rs.delivered
      ensures s.intervalMs == if rs.timestamp == 0 || Interval(rs, now) < rttMin then -1 else Interval(rs, now)
    {
      if appLimited != 0 && SeqCompare(U32(delivered), U32(appLimited)) > 0 {
        appLimited := 0;
      }
      if acked > 0 {
        deliveredTs := now;
      }
      if rs.timestamp == 0 {
        return Bbr.Sample(rs.delivered, -1, -1, rttMs, lost, acked, rs.appLimited, false);
      }
      SeqDiffExact(delivered, rs.delivered);
      var count := SeqDiff(U32(delivered), U32(rs.delivered));
      var interval := Interval(rs, now);
      if interval < rttMin {
        return Bbr.Sample(rs.delivered, count, -1, rttMs, lost, acked, rs.appLimited, false);
      }
      if !rs.appLimited || count * rateIntervalMs >= rateDelivered * interval {
        rateDelivered := count;
        rateIntervalMs := interval;
        rateAppLimited := rs.appLimited;
      }
      s := Bbr.Sample(rs.delivered, count, interval, rttMs, lost, acked, rs.appLimited, false);
    }

    /** The packets that one acknowledgement takes from `outgoing`, in whatever order, and then the sample. With
        `ends` the last of them, in a SACK block, ended the stream: it has been sampled but is not counted. The sample is zero
        in exactly one case: that packet is the only one, and nothing has been delivered since it was last sent. */
    method Acknowledge(order: seq<nat>, ends: bool, lost: nat, now: nat, rttMin: nat, rttMs: int) returns (s: Bbr.Sample)
      requires Valid() && Recent(|order|) && Distinct(order) && (forall n :: n in order ==> n in stamps)
      requires ends ==> order != []
      modifies this
      ensures Valid() && stamps == map n | n in old(stamps) && n !in order :: old(stamps)[n]
      ensures s.acked == |order| - (if ends then 1 else 0) && delivered == old(delivered) + s.acked
      ensures s.delivered == -1 <==> forall i :: 0 <= i < |order| ==> old(stamps)[order[i]].deliveredTs == 0
      ensures s.delivered == -1 || s.delivered >= s.acked
      ensures s.delivered == 0 <==>
                ends && |order| == 1 && old(stamps)[order[0]].deliveredTs > 0 && old(stamps)[order[0]].delivered == old(delivered)
      ensures s.delivered == -1 ==> s.intervalMs == -1
      ensures |order| == 1 && old(stamps)[order[0]].deliveredTs > 0 ==>
                s.intervalMs == Measured(old(stamps)[order[0]], now, rttMin)
    {
      var rs := Prior(0, 0, 0, false, false, 0);
      var i := 0;
      while i < |order|
        invariant 0 <= i <= |order| && stamps == old(stamps)
        invariant delivered == old(delivered) + if ends && i == |order| then i - 1 else i
        invariant if rs.timestamp == 0 then rs.delivered == 0 && forall j :: 0 <= j < i ==> stamps[order[j]].deliveredTs == 0
                  else exists j :: 0 <= j < i && stamps[order[j]].deliveredTs > 0 && rs.delivered == stamps[order[j]].delivered
        invariant rs.timestamp != 0 && |order| == 1 ==>
                    && rs.timestamp == stamps[order[0]].deliveredTs
                    && rs.intervalMs == StampMsDelta(stamps[order[0]].timeSent, stamps[order[0]].firstSentTs)
      {
        assert order[i] in order;
        rs := PacketDelivered(stamps[order[i]], rs);
        if !(ends && i == |order| - 1) {
          delivered := delivered + 1;
        }
        i := i + 1;
      }
      if rs.timestamp != 0 {
        var j :| 0 <= j < i && stamps[order[j]].deliveredTs > 0 && rs.delivered == stamps[order[j]].delivered;
        assert order[j] in order && order[j] in stamps;
      }
      stamps := map n | n in stamps && n !in order :: stamps[n];
      s := Generate(if ends then |order| - 1 else |order|, lost, now, rttMin, rttMs, rs);
    }

    /** An acknowledgement of an honest peer, from the outbox to the controller: it never ends the stream by a SACK
        block, so every packet it takes is counted and the sample is one the controller accepts. */
    method Process(sender: Sending.Sender, c: Bbr.Controller, ack: nat, blocks: seq<Receive.Range>, drained: bool, lost: nat,
                   now: nat, rttMin: nat, rttMs: int, filtered: real, ghost s: P.Sender) returns (stopped: bool)
      requires sender.Kept() && sender.Placed() && sender.Honest(ack, blocks) && sender.Shows(s, drained)
      requires Valid() && stamps.Keys == sender.pkts.Keys && Recent(|stamps|) && |stamps| < 0x8000_0000
      requires c.Valid() && filtered >= 0.0
      modifies this, c, sender
      ensures Valid() && stamps.Keys == sender.pkts.Keys && sender.Kept() && sender.Placed()
      ensures c.Valid() && (old(c.fullBwReached) ==> c.fullBwReached && !c.phase.Startup?)
      ensures delivered + |stamps| + (if stopped then 1 else 0) == old(delivered) + |old(stamps)|
      ensures !stopped && old(stamps) != map[] && c.phase.ProbeRtt? ==> c.cwnd <= Bbr.CWND_MIN_TARGET
    {
      hide *;
      ghost var before := sender.pkts;
      var d;
      stopped, d := sender.Acknowledge(ack, blocks, drained, now, rttMin, s);
      sender.UnackedKeys(before, sender.pkts, ack, blocks);
      KeysLeft(before, sender.pkts);
      Sizes(stamps);
      if stopped {
        delivered := delivered + d;
        stamps := map[];
        NoStamps();
      } else if stamps != map[] {
        var sample := Sampled(sender.pkts.Keys, d, lost, now, rttMin, rttMs);
        c.OnAck(sample, Bbr.Env(now, deliveredTs, delivered, |sender.inflightQ|, sender.ca, filtered));
        Sizes(stamps);
      } else {
        NoStamps();
      }
      c.NotStartup();
    }

    lemma NoStamps()
      ensures stamps == map[] ==> Valid() && stamps.Keys == {} && |stamps| == 0
    {
    }

    /** The sample, once the outbox has let go of `d` packets and holds `left`. */
    method Sampled(left: set<nat>, d: nat, lost: nat, now: nat, rttMin: nat, rttMs: int) returns (sample: Bbr.Sample)
      requires Valid() && left <= stamps.Keys && Recent(|stamps|) && d + |left| == |stamps.Keys|
      modifies this
      ensures Valid() && stamps.Keys == left && delivered == old(delivered) + d
      ensures sample.acked == d && (sample.delivered == 0 ==> sample.intervalMs <= 0)
    {
      var order := Sequence(stamps.Keys - left);
      Remaining(stamps.Keys, left);
      StaysRecent(|order|);
      sample := Acknowledge(order, false, lost, now, rttMin, rttMs);
      assert stamps.Keys == left;
    }

    lemma StaysRecent(more: nat)
      requires Recent(|stamps|) && more <= |stamps.Keys|
      ensures Recent(more)
    {
      assert |stamps| == |stamps.Keys|;
    }
  }

  lemma Sizes<T>(m: map<nat, T>)
    ensures |m| == |m.Keys| && (m == map[] <==> m.Keys == {})
  {
  }

  lemma KeysLeft<T>(before: map<nat, T>, after: map<nat, T>)
    requires forall n :: n in after ==> n in before
    ensures after.Keys <= before.Keys && |after| == |after.Keys| && |before| == |before.Keys|
  {
  }

  lemma Remaining(all: set<nat>, some: set<nat>)
    requires some <= all
    ensures |all - some| == |all| - |some|
  {
    assert all == some + (all - some);
  }

  /** The numbers of a set in some order. */
  method Sequence(s: set<nat>) returns (order: seq<nat>)
    ensures Distinct(order) && |order| == |s| && forall n :: n in order <==> n in s
  {
    order := [];
    var rest := s;
    while rest != {}
      invariant rest <= s && Distinct(order) && |order| + |rest| == |s|
      invariant forall n :: n in order <==> n in s - rest
      decreases |rest|
    {
      var n :| n in rest;
      assert n !in order;
      order := order + [n];
      rest := rest - {n};
    }
  }

  /** The case an honest peer never causes: the first packet, which ends the stream, is sent at time 1 and acknowledged by a
      SACK block at time 11. The sample counts no packet over a positive interval, and the source's assert on the
      bandwidth fails. */
  method ZeroSample() returns (r: Sampler, s: Bbr.Sample)
    ensures s.delivered == 0 && s.intervalMs == 10
  {
    r := new Sampler();
    r.PacketSent(0, true, 1, false);
    assert [0][0] == 0;
    s := r.Acknowledge([0], true, 0, 11, 1, 10);
  }

  function Interval(rs: Prior, now: nat): nat {
    Bbr.Max(rs.intervalMs, StampMsDelta(now, rs.timestamp))
  }

  /** The interval of a sample that one packet gives. */
  function Measured(p: Stamp, now: nat, rttMin: nat): int {
    var interval := Bbr.Max(StampMsDelta(p.timeSent, p.firstSentTs), StampMsDelta(now, p.deliveredTs));
    if interval < rttMin then -1 else interval
  }
}
