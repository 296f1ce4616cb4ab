/** The sending half of a stream in src/udx.c: queues, loss detection, retransmission timeout, acknowledgement
    and the one timer, each function with the asserts it carries. Packets go by their true numbers. */
module Sending {
  import opened SeqArith
  import opened Outbox
  import opened Wrappers
  import P = Protocol
  import Receive
  import S = ProtocolSafety

  datatype Timer = NoTimer | Rto | RackReo | Tlp | Zwp | Keepalive

  datatype CaState = Open | Recovery | Loss

  const HEADER_SIZE: nat := 20
  const MAX_RTO_TIMEOUTS := 6

  /** A timer that looks after outstanding data. */
  predicate Recovers(t: Timer) {
    t.Rto? || t.RackReo? || t.Tlp?
  }

  /** How many of the two, the outbox and a pending socket send, hold on to packet `n`. */
  function Holders(pkts: map<nat, Pkt>, sends: set<nat>, n: nat): nat {
    (if n in pkts then 1 else 0) + (if n in sends then 1 else 0)
  }

  /** Each packet sent and not yet freed counts its holders, at least one; a lost one is held by the outbox
      alone; every other one sent so far has been freed. */
  ghost predicate Counted(refs: map<nat, nat>, pkts: map<nat, Pkt>, sends: set<nat>, freed: set<nat>, seqno: nat) {
    && (forall n :: n in refs <==> n in pkts || n in sends)
    && (forall n :: n in refs ==> refs[n] == Holders(pkts, sends, n))
    && (forall n :: n in pkts && pkts[n].lost ==> n !in sends)
    && (forall n: nat :: n in freed <==> n < seqno && n !in refs)
    && (forall n :: n in sends ==> n < seqno)
  }

  /** The numbers from `p` on that the outbox no longer holds. */
  ghost predicate Holes(sacks: int, pkts: map<nat, Pkt>, p: nat, seqno: nat) {
    && p <= seqno && sacks == seqno - p - |pkts|
    && forall n :: n in pkts ==> p <= n < seqno
  }

  lemma CountPending(refs: map<nat, nat>, pkts: map<nat, Pkt>, sends: set<nat>, freed: set<nat>, seqno: nat, n: nat)
    requires Counted(refs, pkts, sends, freed, seqno) && n in pkts && n < seqno && !pkts[n].lost && n !in sends
    ensures n in refs && refs[n] == 1
    ensures Counted(refs[n := 2], pkts, sends + {n}, freed, seqno)
  {
  }

  /** A change to a packet that stays in the outbox, and is not lost while a socket send is pending. */
  lemma CountChanged(refs: map<nat, nat>, pkts: map<nat, Pkt>, sends: set<nat>, freed: set<nat>, seqno: nat, n: nat, p: Pkt)
    requires Counted(refs, pkts, sends, freed, seqno) && n in pkts && (p.lost ==> n !in sends)
    ensures Counted(refs, pkts[n := p], sends, freed, seqno)
  {
  }

  lemma CountNew(refs: map<nat, nat>, pkts: map<nat, Pkt>, sends: set<nat>, freed: set<nat>, seqno: nat, p: Pkt)
    requires Counted(refs, pkts, sends, freed, seqno) && seqno !in pkts && !p.lost
    ensures seqno !in refs && seqno !in sends && Counted(refs[seqno := 1], pkts[seqno := p], sends, freed, seqno + 1)
  {
  }

  /** What `deref_packet` leaves. */
  function Derefed(refs: map<nat, nat>, n: nat): map<nat, nat> {
    if n in refs && refs[n] > 1 then refs[n := refs[n] - 1] else refs - {n}
  }

  function Freed(refs: map<nat, nat>, freed: set<nat>, n: nat): set<nat> {
    if n in refs && refs[n] > 1 then freed else freed + {n}
  }

  /** The outbox lets go of a packet, ... */
  lemma CountGone(refs: map<nat, nat>, pkts: map<nat, Pkt>, sends: set<nat>, freed: set<nat>, seqno: nat, n: nat)
    requires Counted(refs, pkts, sends, freed, seqno) && n in pkts && n < seqno
    ensures n in refs && refs[n] >= 1 && n !in freed
    ensures Counted(Derefed(refs, n), pkts - {n}, sends, Freed(refs, freed, n), seqno)
  {
  }

  /** ... or the socket does. */
  lemma CountSent(refs: map<nat, nat>, pkts: map<nat, Pkt>, sends: set<nat>, freed: set<nat>, seqno: nat, n: nat)
    requires Counted(refs, pkts, sends, freed, seqno) && n in sends
    ensures n in refs && refs[n] >= 1 && n !in freed
    ensures Counted(Derefed(refs, n), pkts, sends - {n}, Freed(refs, freed, n), seqno)
  {
  }

  /** What RACK looks at: the outbox and the counts before a scan, the latest delivered transmission, and
      the time allowed. */
  datatype Rack = Rack(pkts: map<nat, Pkt>, refs: map<nat, nat>, time: nat, next: nat, rtt: nat, reo: nat, now: nat) {

    /** The packet is in nobody's hands but the outbox's and was sent before the latest delivered one. */
    predicate Passed(n: nat) {
      n in pkts && !(n in refs && refs[n] == 2) && RackSentAfter(time, U32(next), pkts[n].timeSent, U32(n + 1))
    }

    function Remaining(n: nat): int {
      if n in pkts then pkts[n].timeSent + rtt + reo - now else 0
    }

    /** Its time has run out. */
    predicate Overdue(n: nat) {
      Passed(n) && Remaining(n) <= 0
    }

    function Wait(n: nat): nat {
      if Passed(n) && Remaining(n) > 0 then Remaining(n) else 0
    }

    ghost function Lost(q: seq<nat>): set<nat> {
      set n | n in q && Overdue(n)
    }

    /** Of the packets from `acked` up to `p`: those a retransmission timeout gives up. */
    ghost function Due(acked: nat, p: nat): set<nat> {
      set n | n in pkts && n < p && !pkts[n].lost && !(n in refs && refs[n] == 2) && (n == acked || Remaining(n) < 0)
    }

    function Longest(q: seq<nat>): nat {
      if q == [] then 0
      else
        var m := |q| - 1;
        if Wait(q[m]) > Longest(q[..m]) then Wait(q[m]) else Longest(q[..m])
    }
  }

  /** The longest wait is a wait, and no member waits longer. */
  lemma {:induction false} LongestIs(r: Rack, q: seq<nat>)
    ensures forall n :: n in q ==> r.Wait(n) <= r.Longest(q)
    ensures r.Longest(q) == 0 || exists n :: n in q && r.Wait(n) == r.Longest(q)
  {
    if q != [] {
      var m := |q| - 1;
      LongestIs(r, q[..m]);
      assert forall n :: n in q <==> n in q[..m] || n == q[m];
    }
  }

  lemma {:induction false} LongestRest(r: Rack, q: seq<nat>, j: nat)
    requires j <= |q| && forall k :: j <= k < |q| ==> r.Wait(q[k]) == 0
    ensures r.Longest(q) == r.Longest(q[..j])
    decreases |q|
  {
    if j < |q| {
      var m := |q| - 1;
      LongestRest(r, q[..m], j);
      assert q[..m][..j] == q[..j];
    } else {
      assert q[..j] == q;
    }
  }

  /** Behind the first packet sent after the latest delivered one, in the order of transmission, no packet
      was sent before it. */
  lemma BreakMissesNothing(r: Rack, q: seq<nat>, j: nat)
    requires j < |q| && q[j] in r.pkts && ByTime(q, r.pkts) && r.pkts[q[j]].timeSent > r.time
    ensures forall k :: j <= k < |q| ==> !r.Passed(q[k])
  {
    forall k | j <= k < |q|
      ensures !r.Passed(q[k])
    {
      assert j < k ==> TimeOf(r.pkts, q[j]) <= TimeOf(r.pkts, q[k]);
    }
  }

  /** The same numbers with the same payloads. */
  ghost predicate SamePayload(a: map<nat, Pkt>, b: map<nat, Pkt>) {
    a.Keys == b.Keys && forall n :: n in a ==> a[n].bytes == b[n].bytes
  }

  /** The payload of the packets held from `lo` up to, not including, `hi`. */
  function BytesIn(pkts: map<nat, Pkt>, lo: nat, hi: nat): nat
    decreases hi - lo
  {
    if hi <= lo then 0 else BytesIn(pkts, lo, hi - 1) + if hi - 1 in pkts then pkts[hi - 1].bytes else 0
  }

  /** What has been written and not acknowledged is either still unsent or in a packet held; until the stream
      is ending no packet is empty. */
  ghost predicate Owed(queued: nat, unsent: nat, ending: bool, pkts: map<nat, Pkt>, lo: nat, hi: nat) {
    && queued == unsent + BytesIn(pkts, lo, hi)
    && (!ending ==> forall n :: n in pkts ==> pkts[n].bytes > 0)
  }

  lemma {:induction false} BytesFrame(a: map<nat, Pkt>, b: map<nat, Pkt>, lo: nat, hi: nat)
    requires forall n :: lo <= n < hi ==> (n in a <==> n in b) && (n in a ==> a[n].bytes == b[n].bytes)
    ensures BytesIn(a, lo, hi) == BytesIn(b, lo, hi)
    decreases hi - lo
  {
    if lo < hi {
      BytesFrame(a, b, lo, hi - 1);
    }
  }

  lemma OwedSame(queued: nat, unsent: nat, ending: bool, a: map<nat, Pkt>, b: map<nat, Pkt>, lo: nat, hi: nat)
    requires Owed(queued, unsent, ending, a, lo, hi) && SamePayload(a, b)
    ensures Owed(queued, unsent, ending, b, lo, hi)
  {
    BytesFrame(a, b, lo, hi);
  }

  /** A packet acknowledged pays for its own payload. */
  lemma {:induction false} BytesWithout(pkts: map<nat, Pkt>, lo: nat, hi: nat, n: nat)
    requires n in pkts && lo <= n < hi
    ensures BytesIn(pkts - {n}, lo, hi) == BytesIn(pkts, lo, hi) - pkts[n].bytes
    decreases hi - lo
  {
    if n == hi - 1 {
      BytesFrame(pkts, pkts - {n}, lo, hi - 1);
    } else {
      BytesWithout(pkts, lo, hi - 1, n);
    }
  }

  /** The lower end of the range may pass numbers no longer held. */
  lemma {:induction false} BytesFrom(pkts: map<nat, Pkt>, lo: nat, p: nat, hi: nat)
    requires lo <= p && forall n :: n in pkts ==> p <= n < hi
    ensures BytesIn(pkts, lo, hi) == BytesIn(pkts, p, hi)
    decreases hi
  {
    if p < hi {
      var less := map n | n in pkts && n < hi - 1 :: pkts[n];
      BytesFrame(pkts, less, lo, hi - 1);
      BytesFrame(pkts, less, p, hi - 1);
      BytesFrom(less, lo, p, hi - 1);
    } else if lo < hi {
      BytesNone(pkts, lo, hi);
    }
  }

  lemma {:induction false} BytesNone(pkts: map<nat, Pkt>, lo: nat, hi: nat)
    requires forall n :: lo <= n < hi ==> n !in pkts
    ensures BytesIn(pkts, lo, hi) == 0
    decreases hi - lo
  {
    if lo < hi {
      BytesNone(pkts, lo, hi - 1);
    }
  }

  class Sender {
    // seq and remote_acked
    var seqno: nat
    var acked: nat
    // outgoing, inflight_queue, retransmit_queue, inflight
    var pkts: map<nat, Pkt>
    var inflightQ: seq<nat>
    var retransmitQ: seq<nat>
    var inflight: int
    // the number of packets selectively acknowledged beyond remote_acked
    var sacks: int
    // ref_count of each packet, the socket sends pending, and the packets freed
    var refs: map<nat, nat>
    var sends: set<nat>
    var freed: set<nat>
    // writes_queued_bytes, and how much of it no packet holds yet
    var queued: nat
    var unsent: nat
    var ending: bool
    var ended: bool
    var closed: bool
    var sendRwnd: nat
    var timer: Timer
    var keepalive: bool
    var ca: CaState
    var highSeq: nat
    var rackTime: nat
    var rackNext: nat
    var rackRtt: nat
    var cwnd: nat
    var rtoCount: nat
    var lostCount: int
    var tlpInFlight: bool
    var tlpIsRetrans: bool
    var tlpPermitted: bool
    var tlpEnd: nat
    /** The value `high_seq` was given on each entry into fast recovery. */
    ghost var episodes: seq<nat>
    /** The loop time, which never goes back. */
    ghost var clock: nat

    constructor ()
      ensures Valid()
    {
      seqno, acked := 0, 0;
      pkts, inflightQ, retransmitQ, inflight, sacks := map[], [], [], 0, 0;
      refs, sends, freed, queued, unsent := map[], {}, {}, 0, 0;
      ending, ended, closed, sendRwnd, timer, keepalive := false, false, false, 0, NoTimer, false;
      ca, highSeq, rackTime, rackNext, rackRtt, cwnd, rtoCount, lostCount := Open, 0, 0, 0, 0, 10, 0, 0;
      tlpInFlight, tlpIsRetrans, tlpPermitted, tlpEnd, clock := false, false, false, 0, 0;
      episodes := [];
    }

    ghost function Out(): Box
      reads this`pkts, this`inflightQ, this`retransmitQ, this`inflight
    {
      Box(pkts, inflightQ, retransmitQ, inflight)
    }

    /** The outbox is shared out between the queues and every packet's holders are counted. */
    ghost predicate Kept()
      reads this`pkts, this`inflightQ, this`retransmitQ, this`inflight, this`refs, this`sends, this`freed, this`seqno, this`clock
    {
      Out().Shared(clock) && Counted(refs, pkts, sends, freed, seqno)
    }

    /** The timer looks after outstanding data exactly while there is some; a zero-window probe waits only
        for a closed window, with something to send. */
    ghost predicate Timed()
      reads this`timer, this`acked, this`seqno, this`sendRwnd, this`queued, this`ending, this`ended
    {
      && (Recovers(timer) <==> acked != seqno)
      && (timer.Zwp? ==> sendRwnd == 0 && (queued > 0 || (ending && !ended)))
    }

    /** The numbers from `remote_acked` on are held or counted as holes, the first of them is held, and the
        payloads account for what is queued. */
    ghost predicate Placed()
      reads this`pkts, this`acked, this`seqno, this`sacks, this`ended, this`queued, this`unsent, this`ending
    {
      && Owed(queued, unsent, ending, pkts, acked, seqno)
      && acked <= seqno && (forall n :: n in pkts ==> acked <= n < seqno)
      && (!ended ==> Holes(sacks, pkts, acked, seqno)) && (acked == seqno || acked in pkts)
    }

    /** Fast-recovery episodes follow each other at ever higher numbers, and once one has been left the
        sender has moved on beyond it. */
    ghost predicate Disjoint()
      reads this`episodes, this`highSeq, this`seqno, this`ca
    {
      && (forall i, j :: 0 <= i < j < |episodes| ==> episodes[i] < episodes[j])
      && highSeq <= seqno && (episodes != [] ==> episodes[|episodes| - 1] <= highSeq)
      && (episodes != [] && ca.Open? ==> highSeq < seqno)
    }

    ghost predicate Valid()
      reads this
    {
      Kept() && Timed() && Placed() && Disjoint()
    }

    // ---------- packets and their references ----------

    /** `deref_packet`: a packet is freed when its last holder lets go, and never twice. */
    method Deref(n: nat)
      requires n in refs && refs[n] >= 1 && n !in freed
      modifies this`refs, this`freed
      ensures refs == Derefed(old(refs), n) && freed == Freed(old(refs), old(freed), n)
    {
      refs := refs[n := refs[n] - 1];
      if refs[n] == 0 {
        assert n !in freed;
        refs := refs - {n};
        freed := freed + {n};
        assert refs == old(refs) - {n};
      }
    }

    /** `on_stream_data_write`: the socket is done with a packet, before or after the stream was closed. */
    method OnSent(n: nat)
      requires Counted(refs, pkts, sends, freed, seqno) && n in sends
      modifies this`refs, this`freed, this`sends
      ensures Counted(refs, pkts, sends, freed, seqno) && sends == old(sends) - {n}
      ensures old(Kept()) ==> Kept()
    {
      CountSent(refs, pkts, sends, freed, seqno, n);
      sends := sends - {n};
      Deref(n);
    }

    /** `clear_outgoing_packets`, as far as references go: the outbox lets go of every packet, and those the socket
        still has live on until it is done with them. */
    method ClearOutgoing()
      requires Counted(refs, pkts, sends, freed, seqno) && acked <= seqno && forall n :: n in pkts ==> acked <= n < seqno
      modifies this`pkts, this`refs, this`freed
      ensures pkts == map[] && Counted(refs, pkts, sends, freed, seqno)
      ensures forall n: nat :: n in freed <==> n < seqno && n !in sends
    {
      var p := acked;
      while p != seqno
        invariant acked <= p <= seqno && Counted(refs, pkts, sends, freed, seqno)
        invariant forall n :: n in pkts ==> p <= n < seqno
        decreases seqno - p
      {
        if p in pkts {
          CountGone(refs, pkts, sends, freed, seqno, p);
          pkts := pkts - {p};
          Deref(p);
        }
        p := p + 1;
      }
      assert pkts == map[];
    }

    /** Too many timeouts in a row: `close_stream`. */
    method TimeOut()
      requires Kept() && Placed()
      modifies this`pkts, this`refs, this`freed, this`retransmitQ, this`closed
      ensures closed && pkts == map[] && Counted(refs, pkts, sends, freed, seqno)
    {
      hide *;
      KeptParts();
      PlacedParts();
      retransmitQ := [];
      closed := true;
      ClearOutgoing();
    }

    /** The sends that were pending at close complete, in any order: then every packet ever sent has been freed, and
        `Deref` has seen to it that none was freed twice. */
    method Settle(order: seq<nat>)
      requires Counted(refs, pkts, sends, freed, seqno) && pkts == map[]
      requires Distinct(order) && forall n :: n in order <==> n in sends
      modifies this`refs, this`freed, this`sends
      ensures sends == {} && refs == map[] && forall n: nat :: n in freed <==> n < seqno
    {
      var i := 0;
      while i < |order|
        invariant 0 <= i <= |order| && Counted(refs, pkts, sends, freed, seqno)
        invariant forall n :: n in sends <==> n in order[i..]
      {
        assert order[i] in order[i..];
        assert forall n :: n in order[i + 1..] <==> n in order[i..] && n != order[i] by {
          RestWithout(order, i);
        }
        OnSent(order[i]);
        i := i + 1;
      }
      assert sends == {};
      assert refs == map[];
    }

    /** The queues and the outbox after `_send_packet`; the socket may keep the packet for a while. */
    method Transmit(n: nat, now: nat, again: bool)
      requires n in pkts && n in refs && refs[n] == 1
      modifies this`pkts, this`inflightQ, this`retransmitQ, this`inflight, this`refs, this`sends
      ensures Out() == old(Out()).Sent(n, now, again)
      ensures (refs == old(refs) && sends == old(sends)) || (refs == old(refs)[n := 2] && sends == old(sends) + {n})
    {
      if again {
        pkts := pkts[n := pkts[n].(retransmitted := true)];
      }
      pkts := pkts[n := pkts[n].(timeSent := now)];
      if pkts[n].lost {
        retransmitQ := Without(retransmitQ, n);
        pkts := pkts[n := pkts[n].(lost := false)];
      }
      inflightQ := inflightQ + [n];
      inflight := inflight + pkts[n].size;
      var slow: bool := *;
      if slow {
        refs := refs[n := refs[n] + 1];
        assert refs[n] == 2;
        sends := sends + {n};
      }
    }

    // ---------- the timer ----------

    /** `schedule_loss_probe`. */
    method ScheduleLossProbe() returns (started: bool)
      modifies this`timer
      ensures started <==> seqno != acked && ca.Open? && sacks == 0
      ensures timer == if started then Tlp else old(timer)
    {
      if seqno == acked || !ca.Open? || sacks != 0 {
        return false;
      }
      timer := Tlp;
      return true;
    }

    /** `arm_stream_timers`. */
    method ArmTimers(armTlp: bool)
      requires |inflightQ| > 0 && acked != seqno
      modifies this`timer
      ensures Recovers(timer) && (Recovers(old(timer)) ==> timer == old(timer) || timer.Tlp?)
    {
      if timer.NoTimer? || timer.Zwp? || timer.Keepalive? {
        timer := Rto;
      }
      if armTlp && ca.Open? && sacks == 0 {
        var _ := ScheduleLossProbe();
      }
    }

    /** `rearm_rto`. */
    method RearmRto(fromNow: bool)
      requires seqno == acked || fromNow || timer.RackReo? || timer.Tlp?
      modifies this`timer
      ensures timer == if seqno == acked then NoTimer else Rto
    {
      if seqno == acked {
        timer := NoTimer;
      } else {
        if !fromNow {
          assert timer.RackReo? || timer.Tlp?;
        }
        timer := Rto;
      }
    }

    // ---------- sending ----------

    lemma KeptParts()
      requires Kept()
      ensures Out().Shared(clock) && Counted(refs, pkts, sends, freed, seqno) && Out().pkts == pkts
    {
    }

    lemma KeptIs()
      requires Out().Shared(clock) && Counted(refs, Out().pkts, sends, freed, seqno)
      ensures Kept()
    {
    }

    lemma PlacedParts()
      requires Placed()
      ensures acked <= seqno && seqno !in pkts && (forall n :: n in pkts ==> acked <= n < seqno) && (acked == seqno || acked in pkts)
      ensures !ended ==> Holes(sacks, pkts, acked, seqno)
      ensures Owed(queued, unsent, ending, pkts, acked, seqno)
    {
    }

    /** One packet more, the latest, leaves every other where it was. */
    lemma PlacedMore(pkts0: map<nat, Pkt>, n: nat)
      requires acked <= n && seqno == n + 1 && n !in pkts0 && n in pkts && pkts == pkts0[n := pkts[n]]
      requires forall m :: m in pkts0 ==> acked <= m < n
      requires !ended ==> Holes(sacks, pkts0, acked, n)
      requires acked == n || acked in pkts0
      requires pkts[n].bytes > 0 || ending
      requires Owed(queued, unsent + pkts[n].bytes, ending, pkts0, acked, n)
      ensures Placed() && acked != seqno
    {
      BytesFrame(pkts0, pkts, acked, n);
      assert pkts.Keys == pkts0.Keys + {n};
      assert |pkts.Keys| == |pkts0.Keys| + 1;
    }

    /** A new packet takes the next number, enters the outbox and is transmitted. */
    method Launch(p: Pkt, now: nat)
      requires Kept() && clock <= now && seqno !in pkts && !p.lost && p.timeSent == now
      modifies this`pkts, this`inflightQ, this`retransmitQ, this`inflight, this`refs, this`sends, this`seqno, this`clock
      ensures Kept() && seqno == old(seqno) + 1 && clock == now && |inflightQ| > 0
      ensures pkts == old(pkts)[old(seqno) := p] && retransmitQ == old(retransmitQ)
    {
      hide *;
      var n := seqno;
      ghost var b, r0, s0, clock0 := Out(), refs, sends, clock;
      KeptParts();
      BoxIs();
      clock := now;
      refs := refs[n := 1];
      pkts := pkts[n := p];
      BoxIs();
      Transmit(n, now, false);
      seqno := seqno + 1;
      BoxIs();
      Launched(b, r0, s0, freed, n, p, now, clock0, Out(), refs, sends);
      KeptIs();
    }

    lemma BoxIs()
      ensures Out() == Box(pkts, inflightQ, retransmitQ, inflight)
    {
    }

    /** The packet under the next number, with `bytes` of the unsent payload. */
    method Emit(bytes: nat, now: nat)
      requires Kept() && Placed() && clock <= now && bytes <= unsent && (bytes > 0 || ending)
      modifies this`pkts, this`inflightQ, this`retransmitQ, this`inflight, this`refs, this`sends, this`seqno, this`unsent, this`clock
      ensures Kept() && Placed() && seqno == old(seqno) + 1 && clock == now && acked != seqno && |inflightQ| > 0
      ensures unsent == old(unsent) - bytes && retransmitQ == old(retransmitQ)
      ensures pkts == old(pkts)[old(seqno) := Pkt(HEADER_SIZE + bytes, bytes, now, false, false)]
    {
      hide *;
      ghost var pkts0, n := pkts, seqno;
      PlacedParts();
      Launch(Pkt(HEADER_SIZE + bytes, bytes, now, false, false), now);
      unsent := unsent - bytes;
      PlacedMore(pkts0, n);
    }

    /** `_send_new_packet`. */
    method SendNew(bytes: nat, now: nat, tlp: bool)
      requires Kept() && Placed() && clock <= now && bytes <= unsent && (bytes > 0 || ending)
      modifies this`pkts, this`inflightQ, this`retransmitQ, this`inflight, this`refs, this`sends, this`seqno, this`unsent
      modifies this`tlpIsRetrans, this`tlpInFlight, this`tlpEnd, this`tlpPermitted, this`timer, this`clock
      ensures Kept() && Placed() && Recovers(timer) && seqno == old(seqno) + 1 && clock == now && acked != seqno
      ensures unsent == old(unsent) - bytes && retransmitQ == old(retransmitQ)
      ensures pkts == old(pkts)[old(seqno) := Pkt(HEADER_SIZE + bytes, bytes, now, false, false)]
    {
      hide *;
      Emit(bytes, now);
      if tlp {
        tlpIsRetrans := false;
        tlpInFlight := true;
        tlpEnd := seqno - 1;
        tlpPermitted := false;
      }
      ArmTimers(!tlp);
    }

    /** The outbox holds the same numbers as before. */
    lemma PlacedSame(pkts0: map<nat, Pkt>)
      requires SamePayload(pkts0, pkts) && acked <= seqno && (forall n :: n in pkts0 ==> acked <= n < seqno)
      requires (!ended ==> Holes(sacks, pkts0, acked, seqno)) && (acked == seqno || acked in pkts0)
      requires Owed(queued, unsent, ending, pkts0, acked, seqno)
      ensures Placed()
    {
      assert |pkts| == |pkts.Keys| && |pkts0| == |pkts0.Keys|;
      assert forall n :: n in pkts <==> n in pkts0;
      OwedSame(queued, unsent, ending, pkts0, pkts, acked, seqno);
    }

    /** `retransmit_packet` for a packet on the retransmit queue. */
    method Retransmit(n: nat, now: nat)
      requires Kept() && Placed() && clock <= now && n in retransmitQ
      modifies this`pkts, this`inflightQ, this`retransmitQ, this`inflight, this`refs, this`sends, this`clock, this`timer
      ensures Kept() && Placed() && Recovers(timer) && clock == now && SamePayload(old(pkts), pkts) && acked != seqno
      ensures retransmitQ == Without(old(retransmitQ), n)
    {
      hide *;
      ghost var pkts0 := pkts;
      PlacedParts();
      QueuedIsHeld(n);
      RelaunchLost(n, now);
      PlacedSame(pkts0);
      ArmTimers(false);
    }

    lemma QueuedIsHeld(n: nat)
      requires Kept() && n in retransmitQ
      ensures n in pkts && pkts[n].lost
    {
    }

    method RelaunchLost(n: nat, now: nat)
      requires Kept() && clock <= now && n in retransmitQ && n < seqno
      modifies this`pkts, this`inflightQ, this`retransmitQ, this`inflight, this`refs, this`sends, this`clock
      ensures Kept() && clock == now && SamePayload(old(pkts), pkts) && |inflightQ| > 0
      ensures retransmitQ == Without(old(retransmitQ), n)
    {
      hide *;
      ghost var b, r0, s0, clock0 := Out(), refs, sends, clock;
      KeptParts();
      BoxIs();
      ReadyAgain(b, r0, s0, freed, seqno, n, clock0, now);
      clock := now;
      Transmit(n, now, true);
      SentLostAgain(b, r0, s0, freed, seqno, n, clock0, now, Out(), refs, sends);
      BoxIs();
      KeptIs();
    }

    /** `retransmit_packet` for a packet in flight, taken off its queue first. */
    method RetransmitTail(n: nat, now: nat)
      requires Kept() && Placed() && clock <= now && n in pkts && !pkts[n].lost && n !in sends
      modifies this`pkts, this`inflightQ, this`retransmitQ, this`inflight, this`refs, this`sends, this`clock, this`timer
      ensures Kept() && Placed() && Recovers(timer) && clock == now && SamePayload(old(pkts), pkts) && acked != seqno
    {
      hide *;
      ghost var pkts0 := pkts;
      PlacedParts();
      Relaunch(n, now);
      PlacedSame(pkts0);
      ArmTimers(false);
    }

    method Relaunch(n: nat, now: nat)
      requires Kept() && clock <= now && n in pkts && !pkts[n].lost && n !in sends && n < seqno
      modifies this`pkts, this`inflightQ, this`retransmitQ, this`inflight, this`refs, this`sends, this`clock
      ensures Kept() && clock == now && SamePayload(old(pkts), pkts) && |inflightQ| > 0
    {
      hide *;
      ghost var b, r0, s0, clock0 := Out(), refs, sends, clock;
      KeptParts();
      BoxIs();
      ReadyTail(b, r0, s0, freed, seqno, n, clock0, now);
      inflightQ := Without(inflightQ, n);
      inflight := inflight - pkts[n].size;
      clock := now;
      BoxIs();
      Transmit(n, now, true);
      SentTailAgain(b, r0, s0, freed, seqno, n, clock0, now, Out(), refs, sends);
      BoxIs();
      KeptIs();
    }

    /** `send_packets`: retransmissions first, then new packets with the payloads in `loads`, as far as the
        windows and pacing allow. */
    method SendPackets(loads: seq<nat>, rwndPackets: nat, now: nat)
      requires Kept() && Placed() && Timed() && clock <= now && (sendRwnd == 0 ==> rwndPackets == 0)
      modifies this`pkts, this`inflightQ, this`retransmitQ, this`inflight, this`refs, this`sends, this`seqno, this`unsent
      modifies this`tlpIsRetrans, this`tlpInFlight, this`tlpEnd, this`tlpPermitted, this`timer, this`clock
      ensures Kept() && Placed() && Timed() && clock == now && seqno >= old(seqno)
      ensures Recovers(old(timer)) ==> Recovers(timer)
    {
      hide *;
      LaterKept(now);
      clock := now;
      KeptIs();
      var paced: bool := *;
      while |retransmitQ| > 0 && paced && |inflightQ| < cwnd
        invariant Kept() && Placed() && Timed() && clock == now && seqno == old(seqno)
        invariant Recovers(old(timer)) ==> Recovers(timer)
        decreases |retransmitQ|
      {
        WithoutLength(retransmitQ, retransmitQ[0]);
        Retransmit(retransmitQ[0], now);
        TimedNow();
        paced := *;
      }
      var i := 0;
      while i < |loads| && paced && |inflightQ| < (if cwnd < rwndPackets then cwnd else rwndPackets)
            && loads[i] <= unsent && (loads[i] > 0 || ending)
        invariant Kept() && Placed() && Timed() && clock == now && seqno >= old(seqno)
        invariant Recovers(old(timer)) ==> Recovers(timer)
        decreases |loads| - i
      {
        SendNew(loads[i], now, false);
        TimedNow();
        i := i + 1;
        paced := *;
      }
    }

    lemma LaterKept(now: nat)
      requires Kept() && clock <= now
      ensures Out().Shared(now) && Counted(refs, Out().pkts, sends, freed, seqno)
    {
      LaterShared(Out(), clock, now);
    }

    lemma TimedNow()
      requires Recovers(timer) && acked != seqno
      ensures Timed()
    {
    }

    // ---------- loss detection ----------

    /** A packet in flight is marked as lost and moves to the retransmit queue. */
    method GiveUp(n: nat)
      requires Kept() && n in pkts && !pkts[n].lost && n !in sends
      modifies this`pkts, this`inflightQ, this`retransmitQ, this`inflight, this`lostCount
      ensures Kept() && n in old(Out()).pkts && Out() == old(Out()).Lost(n)
    {
      LostShared(Out(), n, clock);
      CountChanged(refs, pkts, sends, freed, seqno, n, pkts[n].(lost := true));
      pkts := pkts[n := pkts[n].(lost := true)];
      lostCount := lostCount + 1;
      inflight := inflight - pkts[n].size;
      inflightQ := Without(inflightQ, n);
      retransmitQ := retransmitQ + [n];
    }

    ghost function View(reo: nat, now: nat): Rack
      reads this`pkts, this`refs, this`rackTime, this`rackNext, this`rackRtt
    {
      Rack(pkts, refs, rackTime, rackNext, rackRtt, reo, now)
    }

    /** The scan of `rack_detect_loss`, which stops early: it gives up exactly the packets of the whole
        in-flight queue that are overdue, and returns the longest time any other passed one has left. */
    method RackScan(now: nat, reo: nat) returns (timeout: nat, resending: nat)
      requires Kept()
      modifies this`pkts, this`inflightQ, this`retransmitQ, this`inflight, this`lostCount
      ensures Kept() && SamePayload(old(pkts), pkts)
      ensures var r := old(View(reo, now)); var q := old(inflightQ);
              && inflightQ == Others(q, r.Lost(q)) && retransmitQ == old(retransmitQ) + Only(q, r.Lost(q))
              && pkts == Marked(old(pkts), r.Lost(q)) && timeout == r.Longest(q) && resending == |Only(q, r.Lost(q))|
    {
      hide *;
      ghost var b, r := Out(), View(reo, now);
      ghost var q, j := inflightQ, 0;
      ghost var s := r.Lost(q);
      timeout, resending := 0, 0;
      ScanBegins(b, r, s, reo, now);
      var i, stop, lost := 0, false, false;
      while i < |inflightQ| && !stop
        invariant j <= |q| && resending == |Only(q[..j], s)|
        invariant Scan(b, r, j, s) && i == |Others(q[..j], s)| && |inflightQ| == i + |q| - j && timeout == r.Longest(q[..j])
        invariant stop ==> forall k :: j <= k < |q| ==> !r.Passed(q[k])
        decreases |q| - j, !stop
      {
        i, timeout, stop, lost := ScanOne(i, timeout, now, reo, b, r, j, s);
        if lost {
          resending := resending + 1;
        }
        if !stop {
          j := j + 1;
        }
      }
      ScanDone(b, r, j, s);
    }

    /** The scan has dealt with the first `j` packets of the queue that was in flight. */
    ghost predicate Scan(b: Box, r: Rack, j: nat, s: set<nat>)
      reads this`pkts, this`inflightQ, this`retransmitQ, this`inflight, this`refs, this`sends, this`freed, this`seqno, this`clock
      reads this`rackTime, this`rackNext, this`rackRtt
    {
      && Kept() && Scanned(b, Out(), j, s) && s == r.Lost(b.inflightQ) && r.pkts == b.pkts && b.Shared(clock)
      && r == Rack(b.pkts, refs, rackTime, rackNext, rackRtt, r.reo, r.now)
    }

    lemma ScanBegins(b: Box, r: Rack, s: set<nat>, reo: nat, now: nat)
      requires Kept() && b == Out() && r == View(reo, now) && s == r.Lost(inflightQ)
      ensures Scan(b, r, 0, s) && |Others(b.inflightQ[..0], s)| == |Only(b.inflightQ[..0], s)| == 0 && r.Longest(b.inflightQ[..0]) == 0
      ensures b.inflightQ == inflightQ && b.pkts == pkts && b.retransmitQ == retransmitQ && r.reo == reo && r.now == now
    {
      ScanStart(b, s);
    }

    /** One packet of the scan. */
    method ScanOne(at: nat, longest: nat, now: nat, reo: nat, ghost b: Box, ghost r: Rack, ghost j: nat, ghost s: set<nat>)
      returns (i: nat, timeout: nat, stop: bool, lost: bool)
      requires Scan(b, r, j, s) && j < |b.inflightQ| && at == |Others(b.inflightQ[..j], s)| && at < |inflightQ| && r.reo == reo && r.now == now
      requires |inflightQ| == at + |b.inflightQ| - j && longest == r.Longest(b.inflightQ[..j])
      modifies this`pkts, this`inflightQ, this`retransmitQ, this`inflight, this`lostCount
      ensures stop ==> Scan(b, r, j, s) && i == at && timeout == longest && |inflightQ| == i + |b.inflightQ| - j
      ensures stop ==> forall k :: j <= k < |b.inflightQ| ==> !r.Passed(b.inflightQ[k])
      ensures !stop ==> Scan(b, r, j + 1, s) && i == |Others(b.inflightQ[..j + 1], s)| && timeout == r.Longest(b.inflightQ[..j + 1])
      ensures !stop ==> |inflightQ| == i + |b.inflightQ| - (j + 1)
      ensures stop ==> !lost
      ensures !stop ==> |Only(b.inflightQ[..j + 1], s)| == |Only(b.inflightQ[..j], s)| + if lost then 1 else 0
    {
      hide *;
      i, timeout, stop, lost := at, longest, false, false;
      var n := inflightQ[i];
      ScanReads(b, r, j, s, n);
      if pkts[n].timeSent > rackTime {
        stop := true;
        return;
      }
      if refs[n] == 2 {
        ScanPasses(b, r, j, s, n);
        i := i + 1;
        return;
      }
      if RackSentAfter(rackTime, U32(rackNext), pkts[n].timeSent, U32(n + 1)) {
        var remaining := pkts[n].timeSent + rackRtt + reo - now;
        if remaining <= 0 {
          ScanLoses(b, r, j, s, n);
          GiveUp(n);
          ScanLost(b, r, j, s, n);
          lost := true;
          return;
        } else if remaining > timeout {
          timeout := remaining;
        }
      }
      ScanPasses(b, r, j, s, n);
      i := i + 1;
    }

    lemma ScanParts(b: Box, r: Rack, j: nat, s: set<nat>)
      requires Scan(b, r, j, s)
      ensures Kept() && Scanned(b, Out(), j, s) && s == r.Lost(b.inflightQ) && r.pkts == b.pkts && b.Shared(clock)
      ensures r == Rack(b.pkts, refs, rackTime, rackNext, rackRtt, r.reo, r.now) && Out() == Box(pkts, inflightQ, retransmitQ, inflight)
    {
    }

    lemma ScanReads(b: Box, r: Rack, j: nat, s: set<nat>, n: nat)
      requires Scan(b, r, j, s) && j < |b.inflightQ| && |Others(b.inflightQ[..j], s)| < |inflightQ|
      requires n == inflightQ[|Others(b.inflightQ[..j], s)|]
      ensures n == b.inflightQ[j] && n in inflightQ && Kept() && n in pkts && !pkts[n].lost && n in refs && (refs[n] != 2 ==> n !in sends)
      ensures r.Passed(n) <==> refs[n] != 2 && RackSentAfter(rackTime, U32(rackNext), pkts[n].timeSent, U32(n + 1))
      ensures r.Remaining(n) == pkts[n].timeSent + rackRtt + r.reo - r.now
      ensures n in s <==> r.Overdue(n)
      ensures r.Overdue(n) <==> r.Passed(n) && r.Remaining(n) <= 0
      ensures r.Wait(n) == if r.Passed(n) && r.Remaining(n) > 0 then r.Remaining(n) else 0
      ensures r.Longest(b.inflightQ[..j + 1]) == if r.Wait(n) > r.Longest(b.inflightQ[..j]) then r.Wait(n) else r.Longest(b.inflightQ[..j])
      ensures pkts[n].timeSent > rackTime ==> forall k :: j <= k < |b.inflightQ| ==> !r.Passed(b.inflightQ[k])
    {
      hide *;
      ScanParts(b, r, j, s);
      InFlight(b, clock, b.inflightQ[j]);
      ScanAt(b, Out(), j, s);
      KeptParts();
      CountOf(refs, pkts, sends, freed, seqno, n);
      RackOf(r, b.inflightQ, j);
      if pkts[n].timeSent > rackTime {
        BreakMissesNothing(r, b.inflightQ, j);
      }
    }

    lemma ScanPasses(b: Box, r: Rack, j: nat, s: set<nat>, n: nat)
      requires Scan(b, r, j, s) && j < |b.inflightQ| && n == b.inflightQ[j] && n !in s
      ensures Scan(b, r, j + 1, s) && |Others(b.inflightQ[..j + 1], s)| == |Others(b.inflightQ[..j], s)| + 1
      ensures |Only(b.inflightQ[..j + 1], s)| == |Only(b.inflightQ[..j], s)|
    {
      ScanSkip(b, Out(), j, s);
    }

    lemma ScanLoses(b: Box, r: Rack, j: nat, s: set<nat>, n: nat)
      requires Scan(b, r, j, s) && j < |b.inflightQ| && n == b.inflightQ[j] && n in s && n in pkts && n in inflightQ
      ensures Kept() && n in b.pkts && Out().pkts == pkts && Out().inflightQ == inflightQ
      ensures s == r.Lost(b.inflightQ) && r.pkts == b.pkts && b.Shared(clock)
      ensures r == Rack(b.pkts, refs, rackTime, rackNext, rackRtt, r.reo, r.now)
      ensures Scanned(b, Out().Lost(n), j + 1, s) && |Others(b.inflightQ[..j + 1], s)| == |Others(b.inflightQ[..j], s)|
      ensures |Only(b.inflightQ[..j + 1], s)| == |Only(b.inflightQ[..j], s)| + 1
      ensures |Out().Lost(n).inflightQ| == |inflightQ| - 1
    {
      ScanLose(b, Out(), j, s);
      WithoutLength(inflightQ, n);
    }

    lemma ScanLost(b: Box, r: Rack, j: nat, s: set<nat>, n: nat)
      requires Kept() && Scanned(b, Out(), j + 1, s) && s == r.Lost(b.inflightQ) && r.pkts == b.pkts && b.Shared(clock)
      requires r == Rack(b.pkts, refs, rackTime, rackNext, rackRtt, r.reo, r.now)
      ensures Scan(b, r, j + 1, s) && Out().inflightQ == inflightQ
    {
    }

    lemma ScanDone(b: Box, r: Rack, j: nat, s: set<nat>)
      requires Scan(b, r, j, s) && forall k :: j <= k < |b.inflightQ| ==> !r.Passed(b.inflightQ[k])
      ensures Kept() && inflightQ == Others(b.inflightQ, s) && retransmitQ == b.retransmitQ + Only(b.inflightQ, s)
      ensures pkts == Marked(b.pkts, s) && SamePayload(b.pkts, pkts) && r.Longest(b.inflightQ) == r.Longest(b.inflightQ[..j])
      ensures |Only(b.inflightQ, s)| == |Only(b.inflightQ[..j], s)|
    {
      hide *;
      ScanParts(b, r, j, s);
      ScannedLength(b, Out(), j, s);
      RestNotLost(r, b.inflightQ, j);
      SplitsNone(b.inflightQ, j, s);
      ScanEnd(b, Out(), j, s);
      LongestRest(r, b.inflightQ, j);
      LostIn(r, b.inflightQ, b.pkts);
    }

    lemma ValidParts()
      requires Valid()
      ensures Kept() && Timed() && Placed() && Disjoint()
    {
    }

    lemma ValidIs()
      requires Kept() && Timed() && Placed() && Disjoint()
      ensures Valid()
    {
    }

    /** A packet given up starts fast recovery, unless a recovery is still under way. */
    method EnterRecovery()
      requires Disjoint() && ca.Open?
      modifies this`ca, this`highSeq, this`tlpInFlight, this`tlpIsRetrans, this`episodes
      ensures Disjoint() && ca.Recovery? && episodes == old(episodes) + [seqno] && highSeq == seqno
    {
      ca := Recovery;
      episodes := episodes + [seqno];
      highSeq := seqno;
      tlpInFlight := false;
      tlpIsRetrans := false;
    }

    lemma DisjointLater(seqno0: nat)
      requires (forall i, j :: 0 <= i < j < |episodes| ==> episodes[i] < episodes[j])
      requires highSeq <= seqno0 <= seqno && (episodes != [] ==> episodes[|episodes| - 1] <= highSeq)
      requires episodes != [] && ca.Open? ==> highSeq < seqno0
      ensures Disjoint()
    {
    }

    lemma DisjointParts()
      requires Disjoint()
      ensures (forall i, j :: 0 <= i < j < |episodes| ==> episodes[i] < episodes[j])
      ensures highSeq <= seqno && (episodes != [] ==> episodes[|episodes| - 1] <= highSeq)
      ensures episodes != [] && ca.Open? ==> highSeq < seqno
    {
    }

    lemma ViewIs(reo: nat, now: nat)
      ensures View(reo, now).pkts == pkts
    {
    }

    /** The scan, with the timed part of the invariant left to the caller. */
    method ScanQueue(now: nat, reo: nat) returns (timeout: nat, resending: nat)
      requires Kept() && Placed() && clock <= now
      modifies this`pkts, this`inflightQ, this`retransmitQ, this`inflight, this`lostCount, this`clock
      ensures Kept() && Placed() && clock == now && SamePayload(old(pkts), pkts)
      ensures timeout > 0 ==> acked != seqno
    {
      hide *;
      LaterKept(now);
      PlacedParts();
      ViewIs(reo, now);
      ghost var pkts0, q0 := pkts, inflightQ;
      ghost var r := View(reo, now);
      clock := now;
      KeptIs();
      timeout, resending := RackScan(now, reo);
      PlacedSame(pkts0);
      WaitIsOutstanding(r, q0, acked, seqno);
    }

    /** The loss detection of `rack_detect_loss`. A loss of nothing but MTU probes is not congestion. */
    method DetectLoss(now: nat, reo: nat) returns (timeout: nat)
      requires Kept() && Placed() && Disjoint() && clock <= now
      modifies this`pkts, this`inflightQ, this`retransmitQ, this`inflight, this`lostCount, this`clock
      modifies this`ca, this`highSeq, this`tlpInFlight, this`tlpIsRetrans, this`episodes
      ensures Kept() && Placed() && Disjoint() && clock == now && SamePayload(old(pkts), pkts)
      ensures timeout > 0 ==> acked != seqno
      ensures episodes == old(episodes) || (old(ca.Open?) && ca.Recovery? && episodes == old(episodes) + [seqno])
    {
      hide *;
      var resending;
      timeout, resending := ScanQueue(now, reo);
      var probesLost: nat :| probesLost <= resending;
      if resending > probesLost && ca.Open? {
        EnterRecovery();
      }
    }

    /** `rack_detect_loss`. */
    method RackDetectLoss(now: nat, reo: nat, loads: seq<nat>, rwndPackets: nat) returns (timeout: nat)
      requires Valid() && clock <= now && (sendRwnd == 0 ==> rwndPackets == 0)
      modifies this`pkts, this`inflightQ, this`retransmitQ, this`inflight, this`lostCount, this`clock
      modifies this`ca, this`highSeq, this`tlpInFlight, this`tlpIsRetrans, this`episodes
      modifies this`refs, this`sends, this`seqno, this`unsent, this`tlpEnd, this`tlpPermitted, this`timer
      ensures Valid() && clock == now && seqno >= old(seqno)
      ensures Recovers(old(timer)) ==> Recovers(timer)
      ensures timeout > 0 ==> acked != seqno
      ensures episodes == old(episodes) || (old(ca.Open?) && ca.Recovery? && episodes == old(episodes) + [old(seqno)])
    {
      hide *;
      ghost var seqno0 := seqno;
      ValidParts();
      timeout := DetectLoss(now, reo);
      DisjointParts();
      PlacedParts();
      SendPackets(loads, rwndPackets, now);
      DisjointLater(seqno0);
      ValidIs();
    }

    // ---------- the retransmission timeout ----------

    /** The rebuild has come to number `p`. */
    ghost predicate Rebuilding(r: Rack, p: nat)
      reads this`pkts, this`inflightQ, this`retransmitQ, this`inflight, this`refs, this`sends, this`freed, this`seqno, this`acked, this`clock
      reads this`rackTime, this`rackNext, this`rackRtt
    {
      && acked <= p <= seqno && Half(pkts, inflightQ, inflight, clock) && Counted(refs, pkts, sends, freed, seqno)
      && retransmitQ == Listing(pkts, acked, p) && pkts == Marked(r.pkts, r.Due(acked, p))
      && r == Rack(r.pkts, refs, rackTime, rackNext, rackRtt, r.reo, r.now)
    }

    /** The loop of `udx_rto_timeout`, after the retransmit queue has been emptied: no packet is dropped, and
        the queue lists in sequence order the packets lost before and those that are due now. */
    method Rebuild(now: nat, reo: nat)
      requires Kept() && Placed() && clock <= now && acked != seqno
      modifies this`pkts, this`inflightQ, this`retransmitQ, this`inflight, this`lostCount, this`clock
      ensures Kept() && Placed() && clock == now && SamePayload(old(pkts), pkts)
      ensures pkts == Marked(old(pkts), old(View(reo, now)).Due(acked, seqno))
      ensures retransmitQ == Listing(pkts, acked, seqno)
      ensures acked in pkts && acked !in sends ==> retransmitQ != [] && retransmitQ[0] == acked
    {
      hide *;
      ghost var pkts0, r := pkts, View(reo, now);
      HalfNow(now, reo);
      PlacedParts();
      retransmitQ := [];
      clock := now;
      RebuildBegins(r);
      RebuildIs(r, acked);
      var p := acked;
      while p != seqno
        invariant acked <= p <= seqno && Rebuilding(r, p) && clock == now
        decreases seqno - p
      {
        RebuildOne(p, now, reo, r);
        p := p + 1;
      }
      RebuildEnds(r);
      PlacedSame(pkts0);
    }

    method RebuildOne(p: nat, now: nat, reo: nat, ghost r: Rack)
      requires Rebuilding(r, p) && p < seqno && r.reo == reo && r.now == now
      modifies this`pkts, this`inflightQ, this`retransmitQ, this`inflight, this`lostCount
      ensures Rebuilding(r, p + 1)
    {
      hide *;
      RebuildReads(r, p);
      if p !in pkts {
        RebuildIs(r, p + 1);
        return;
      }
      if pkts[p].lost {
        retransmitQ := retransmitQ + [p];
        RebuildIs(r, p + 1);
        return;
      }
      var remaining := pkts[p].timeSent + rackRtt + reo - now;
      if p == acked || remaining < 0 {
        lostCount := lostCount + 1;
        if refs[p] == 2 {
          RebuildIs(r, p + 1);
          return;
        }
        RebuildLoses(r, p);
        pkts := pkts[p := pkts[p].(lost := true)];
        inflightQ := Without(inflightQ, p);
        retransmitQ := retransmitQ + [p];
        inflight := inflight - pkts[p].size;
      }
      RebuildIs(r, p + 1);
    }

    lemma RebuildIs(r: Rack, p: nat)
      requires acked <= p <= seqno && Half(pkts, inflightQ, inflight, clock) && Counted(refs, pkts, sends, freed, seqno)
      requires retransmitQ == Listing(pkts, acked, p) && pkts == Marked(r.pkts, r.Due(acked, p))
      requires r == Rack(r.pkts, refs, rackTime, rackNext, rackRtt, r.reo, r.now)
      ensures Rebuilding(r, p)
    {
    }

    lemma HalfNow(now: nat, reo: nat)
      requires Kept() && clock <= now
      ensures Half(pkts, inflightQ, inflight, now) && Counted(refs, pkts, sends, freed, seqno)
      ensures View(reo, now) == Rack(pkts, refs, rackTime, rackNext, rackRtt, reo, now)
    {
    }

    lemma RebuildBegins(r: Rack)
      requires r.pkts == pkts && forall n :: n in pkts ==> acked <= n
      ensures Listing(pkts, acked, acked) == [] && r.Due(acked, acked) == {} && Marked(pkts, {}) == pkts
    {
    }

    lemma RebuildEnds(r: Rack)
      requires Rebuilding(r, seqno) && forall n :: n in r.pkts ==> acked <= n < seqno
      ensures Kept() && SamePayload(r.pkts, pkts) && pkts == Marked(r.pkts, r.Due(acked, seqno)) && retransmitQ == Listing(pkts, acked, seqno)
      ensures acked in pkts && acked !in sends && acked < seqno ==> retransmitQ != [] && retransmitQ[0] == acked
    {
      ListingLists(pkts, acked, seqno);
      if acked in pkts && acked !in sends && acked < seqno {
        AckedIsDue(r, acked, seqno, sends, pkts, freed);
        ListingHead(pkts, acked, seqno);
      }
    }

    lemma RebuildReads(r: Rack, p: nat)
      requires Rebuilding(r, p) && p < seqno
      ensures Half(pkts, inflightQ, inflight, clock) && Counted(refs, pkts, sends, freed, seqno) && acked <= p
      ensures r == Rack(r.pkts, refs, rackTime, rackNext, rackRtt, r.reo, r.now) && retransmitQ == Listing(pkts, acked, p)
      ensures p in pkts ==> p in refs && (refs[p] == 2 <==> p in sends)
      ensures Listing(pkts, acked, p + 1) == if p in pkts && pkts[p].lost then retransmitQ + [p] else retransmitQ
      ensures pkts == Marked(r.pkts, r.Due(acked, p))
      ensures var due := p in pkts && !pkts[p].lost && refs[p] != 2 && (p == acked || pkts[p].timeSent + rackRtt + r.reo - r.now < 0);
              r.Due(acked, p + 1) == if due then r.Due(acked, p) + {p} else r.Due(acked, p)
    {
      CountAt(refs, pkts, sends, freed, seqno, p);
      DueMore(r, acked, p);
    }

    lemma RebuildLoses(r: Rack, p: nat)
      requires Rebuilding(r, p) && p < seqno && p in pkts && !pkts[p].lost && p !in sends
      ensures var c := pkts[p := pkts[p].(lost := true)];
              && Half(c, Without(inflightQ, p), inflight - pkts[p].size, clock) && Counted(refs, c, sends, freed, seqno)
              && Listing(c, acked, p + 1) == Listing(pkts, acked, p) + [p] && c == Marked(r.pkts, r.Due(acked, p) + {p})
    {
      var c := pkts[p := pkts[p].(lost := true)];
      HalfLose(pkts, inflightQ, inflight, clock, p);
      CountChanged(refs, pkts, sends, freed, seqno, p, c[p]);
      ListingFrame(pkts, c, acked, p);
      MarkOneMore(r.pkts, r.Due(acked, p), p);
    }

    // ---------- the timer callbacks ----------

    /** What a timeout does to the state of recovery. */
    method EnterLoss()
      requires Disjoint() && acked != seqno
      modifies this`highSeq, this`rtoCount, this`ca, this`tlpInFlight, this`tlpIsRetrans, this`timer
      ensures Disjoint() && Timed() && timer.Rto? && ca.Loss? && highSeq == seqno && rtoCount == old(rtoCount) + 1
    {
      highSeq := seqno;
      rtoCount := rtoCount + 1;
      ca := Loss;
      tlpInFlight := false;
      tlpIsRetrans := false;
      timer := Rto;
    }

    /** Everything due is given up, and as much of it as may be goes out at once. */
    method Recover(now: nat, reo: nat, loads: seq<nat>, rwndPackets: nat)
      requires Valid() && acked != seqno && clock <= now && (sendRwnd == 0 ==> rwndPackets == 0)
      modifies this`pkts, this`inflightQ, this`retransmitQ, this`inflight, this`lostCount, this`clock, this`cwnd
      modifies this`refs, this`sends, this`seqno, this`unsent, this`timer
      modifies this`tlpIsRetrans, this`tlpInFlight, this`tlpEnd, this`tlpPermitted
      ensures Valid() && seqno >= old(seqno)
    {
      hide *;
      ghost var seqno0 := seqno;
      ValidParts();
      DisjointParts();
      Rebuild(now, reo);
      cwnd := |inflightQ| + 1;
      SendPackets(loads, rwndPackets, now);
      DisjointLater(seqno0);
      ValidIs();
    }

    /** `udx_rto_timeout`: everything due is given up and sent again; too many in a row close the stream. */
    method RtoTimeout(now: nat, reo: nat, loads: seq<nat>, rwndPackets: nat)
      requires Valid() && timer.Rto? && clock <= now && (sendRwnd == 0 ==> rwndPackets == 0)
      modifies this
      ensures closed || Valid()
      ensures closed == (old(closed) || old(rtoCount) + 1 > MAX_RTO_TIMEOUTS)
      ensures old(rtoCount) + 1 > MAX_RTO_TIMEOUTS ==> pkts == map[] && Counted(refs, pkts, sends, freed, seqno)
      ensures episodes == old(episodes) && acked == old(acked) && seqno >= old(seqno)
    {
      hide *;
      ValidParts();
      OutstandingNow();
      timer := NoTimer;
      assert acked != seqno;
      EnterLoss();
      if rtoCount > MAX_RTO_TIMEOUTS {
        TimeOut();
        return;
      }
      ValidIs();
      Recover(now, reo, loads, rwndPackets);
    }

    lemma OutstandingNow()
      requires Timed() && Recovers(timer)
      ensures acked != seqno
    {
    }

    /** The probe: a new packet if `load` has any data, else the last packet again if it can be sent. */
    method SendProbe(now: nat, load: Option<nat>) returns (sent: bool)
      requires Kept() && Placed() && clock <= now && acked != seqno && seqno > 0
      requires load.Some? ==> load.value <= unsent && (load.value > 0 || ending)
      modifies this`pkts, this`inflightQ, this`retransmitQ, this`inflight, this`refs, this`sends, this`seqno, this`unsent
      modifies this`tlpIsRetrans, this`tlpInFlight, this`tlpEnd, this`tlpPermitted, this`timer, this`clock
      ensures Kept() && Placed() && acked != seqno && seqno >= old(seqno) && (!sent ==> timer == old(timer))
    {
      hide *;
      if load.Some? {
        SendNew(load.value, now, true);
        return true;
      }
      var n := seqno - 1;
      TailCount(n);
      if n !in pkts || pkts[n].lost || refs[n] == 2 {
        return false;
      }
      RetransmitTail(n, now);
      tlpIsRetrans := true;
      tlpInFlight := true;
      tlpEnd := n;
      tlpPermitted := false;
      return true;
    }

    /** `udx_tlp_timeout`. */
    method TlpTimeout(now: nat, load: Option<nat>)
      requires Valid() && timer.Tlp? && clock <= now
      requires load.Some? ==> load.value <= unsent && (load.value > 0 || ending)
      modifies this`pkts, this`inflightQ, this`retransmitQ, this`inflight, this`refs, this`sends, this`seqno, this`unsent
      modifies this`tlpIsRetrans, this`tlpInFlight, this`tlpEnd, this`tlpPermitted, this`timer, this`clock
      ensures Valid() && seqno >= old(seqno) && timer.Rto?
    {
      hide *;
      ghost var seqno0 := seqno;
      TlpReady();
      if acked == seqno {
        return;
      }
      var sent := false;
      if !tlpInFlight && tlpPermitted {
        sent := SendProbe(now, load);
      }
      RearmRto(sent);
      Rearmed();
      DisjointLater(seqno0);
      ValidIs();
    }

    lemma TlpReady()
      requires Valid() && Recovers(timer)
      ensures Kept() && Placed() && acked != seqno && seqno > 0
      ensures (forall i, j :: 0 <= i < j < |episodes| ==> episodes[i] < episodes[j])
      ensures highSeq <= seqno && (episodes != [] ==> episodes[|episodes| - 1] <= highSeq)
      ensures episodes != [] && ca.Open? ==> highSeq < seqno
    {
    }

    lemma TailCount(n: nat)
      requires Kept()
      ensures n in pkts ==> n in refs && (refs[n] == 2 <==> n in sends)
    {
      CountAt(refs, pkts, sends, freed, seqno, n);
    }

    /** `udx_rack_reo_timeout`. */
    method ReoTimeout(now: nat, reo: nat, loads: seq<nat>, rwndPackets: nat)
      requires Valid() && timer.RackReo? && clock <= now && (sendRwnd == 0 ==> rwndPackets == 0)
      modifies this
      ensures Valid()
    {
      hide *;
      ValidParts();
      OutstandingNow();
      var _ := RackDetectLoss(now, reo, loads, rwndPackets);
      ValidParts();
      var fromNow := !(timer.RackReo? || timer.Tlp?);
      if !timer.Rto? {
        RearmRto(fromNow);
        Rearmed();
      }
      ValidIs();
    }

    lemma Rearmed()
      requires timer == if seqno == acked then NoTimer else Rto
      ensures Timed()
    {
    }

    /** `udx_zwp_timeout`: a probe of a closed window; its asserts hold. */
    method ZwpTimeout()
      requires Valid() && timer.Zwp?
      modifies this`timer
      ensures Valid() && timer.Zwp? && acked == seqno
    {
      assert sendRwnd == 0;
      assert timer.Zwp?;
      assert queued > 0 || (ending && !ended);
      timer := Zwp;
    }

    /** `udx_keepalive_timeout`. */
    method KeepaliveTimeout()
      requires Valid() && timer.Keepalive?
      modifies this`timer
      ensures Valid() && timer.Keepalive?
    {
      assert seqno == acked;
      timer := Keepalive;
    }

    /** `udx_stream_set_keepalive` on a connected stream. */
    method SetKeepalive(on: bool)
      requires Valid()
      modifies this`keepalive, this`timer
      ensures Valid()
    {
      keepalive := on;
      if acked == seqno && on {
        timer := Keepalive;
      }
    }

    // ---------- writing ----------

    /** `_udx_stream_write` with `size` bytes in all, `end` for `udx_stream_write_end`. Writes are not empty
        except the last; a stream that is ending takes no more. */
    method Write(size: nat, end: bool, now: nat, loads: seq<nat>, rwndPackets: nat)
      requires Valid() && !ending && !ended && (size > 0 || end) && clock <= now && (sendRwnd == 0 ==> rwndPackets == 0)
      modifies this`queued, this`ending
      modifies this`pkts, this`inflightQ, this`retransmitQ, this`inflight, this`refs, this`sends, this`seqno, this`unsent
      modifies this`tlpIsRetrans, this`tlpInFlight, this`tlpEnd, this`tlpPermitted, this`timer, this`clock
      ensures Valid() && queued == old(queued) + size && ending == end && seqno >= old(seqno)
    {
      hide *;
      ValidParts();
      DisjointParts();
      ghost var seqno0, timer0, queued0, unsent0 := seqno, timer, queued, unsent;
      PlacedParts();
      TimedParts();
      IdleIsEmpty();
      var idle := queued == 0;
      ending := end;
      queued := queued + size;
      unsent := unsent + size;
      if idle && sendRwnd == 0 {
        timer := Zwp;
      }
      Written(timer0, queued0, unsent0, size);
      SendPackets(loads, rwndPackets, now);
      DisjointLater(seqno0);
      ValidIs();
    }

    lemma TimedParts()
      requires Timed()
      ensures (Recovers(timer) <==> acked != seqno) && (timer.Zwp? ==> sendRwnd == 0 && (queued > 0 || (ending && !ended)))
    {
    }

    lemma Written(timer0: Timer, queued0: nat, unsent0: nat, size: nat)
      requires acked <= seqno && (forall n :: n in pkts ==> acked <= n < seqno) && (acked == seqno || acked in pkts)
      requires (!ended ==> Holes(sacks, pkts, acked, seqno)) && Owed(queued0, unsent0, false, pkts, acked, seqno)
      requires queued == queued0 + size && unsent == unsent0 + size && !ended && (size > 0 || ending)
      requires (Recovers(timer0) <==> acked != seqno) && (timer0.Zwp? ==> sendRwnd == 0)
      requires timer == timer0 || (timer.Zwp? && acked == seqno && sendRwnd == 0)
      ensures Placed() && Timed()
    {
    }

    /** Nothing queued means nothing outstanding. */
    lemma IdleIsEmpty()
      requires Placed() && !ending
      ensures queued == 0 ==> acked == seqno
    {
      if queued == 0 && acked in pkts {
        BytesWithout(pkts, acked, seqno, acked);
      }
    }

    // ---------- acknowledgements ----------

    /** Everything below `p` has been dealt with: the holes and the payloads from `p` on add up. */
    ghost predicate Acking(p: nat)
      reads this`pkts, this`seqno, this`sacks, this`ended, this`queued, this`unsent, this`ending
    {
      && p <= seqno && (forall n :: n in pkts ==> p <= n < seqno)
      && (!ended ==> Holes(sacks, pkts, p, seqno)) && Owed(queued, unsent, ending, pkts, p, seqno)
    }

    /** The round-trip part of `ack_packet`: the latest delivered transmission. */
    method RackUpdate(n: nat, p: Pkt, now: nat, rttMin: nat)
      modifies this`rackRtt, this`rackTime, this`rackNext
    {
      var rtt := if now >= p.timeSent then now - p.timeSent else 0;
      if !p.retransmitted || rtt >= rttMin {
        rackRtt := rtt;
        if RackSentAfter(p.timeSent, U32(n + 1), rackTime, U32(rackNext)) {
          rackTime := p.timeSent;
          rackNext := n + 1;
        }
      }
    }

    /** A packet leaves the outbox and its queue. */
    method Leave(n: nat)
      requires Kept() && n in pkts && n < seqno && pkts[n].bytes <= queued
      modifies this`pkts, this`inflightQ, this`retransmitQ, this`inflight, this`refs, this`freed, this`queued
      ensures Kept() && pkts == old(pkts) - {n} && queued == old(queued) - old(pkts)[n].bytes
    {
      hide *;
      LeaveReady(n);
      var p := pkts[n];
      pkts := pkts - {n};
      if p.lost {
        retransmitQ := Without(retransmitQ, n);
      } else {
        inflightQ := Without(inflightQ, n);
        inflight := inflight - p.size;
      }
      queued := queued - p.bytes;
      Deref(n);
      BoxIs();
      KeptIs();
    }

    lemma LeaveReady(n: nat)
      requires Kept() && n in pkts && n < seqno
      ensures var p := pkts[n];
              var c := if p.lost then Box(pkts - {n}, inflightQ, Without(retransmitQ, n), inflight)
                       else Box(pkts - {n}, Without(inflightQ, n), retransmitQ, inflight - p.size);
              c.Shared(clock)
      ensures n in refs && refs[n] >= 1 && n !in freed
      ensures Counted(Derefed(refs, n), pkts - {n}, sends, Freed(refs, freed, n), seqno)
    {
      GoneShared(Out(), n, clock);
      CountGone(refs, pkts, sends, freed, seqno, n);
    }

    /** `ack_packet`: 0 for a packet acknowledged before, 2 if this one ends the stream, else 1. */
    method AckPacket(n: nat, sack: bool, drained: bool, now: nat, rttMin: nat) returns (a: nat)
      requires Kept() && n < seqno && (n in pkts ==> pkts[n].bytes <= queued)
      requires n !in pkts && !sack && !ended ==> sacks > 0
      modifies this`pkts, this`inflightQ, this`retransmitQ, this`inflight, this`refs, this`freed, this`queued
      modifies this`sacks, this`ended, this`rackRtt, this`rackTime, this`rackNext, this`tlpPermitted
      ensures Kept() && pkts == old(pkts) - {n} && (a == 0 <==> n !in old(pkts))
      ensures queued == old(queued) - if n in old(pkts) then old(pkts)[n].bytes else 0
      ensures sacks == old(sacks) + if n in old(pkts) then (if sack then 1 else 0) else (if sack then 0 else -1)
      ensures a == 2 <==> n in old(pkts) && pkts == map[] && ending && !old(ended) && drained
      ensures ended == (old(ended) || a == 2)
      ensures a <= 2
    {
      hide *;
      if n !in pkts {
        assert pkts - {n} == pkts;
        if !sack {
          sacks := sacks - 1;
        }
        return 0;
      }
      var p := pkts[n];
      Leave(n);
      if sack {
        sacks := sacks + 1;
      }
      RackUpdate(n, p, now, rttMin);
      if !p.retransmitted {
        tlpPermitted := true;
      }
      EmptyQueues();
      if ending && !ended && |inflightQ| == 0 && |retransmitQ| == 0 && drained {
        ended := true;
        return 2;
      }
      return 1;
    }

    lemma EmptyQueues()
      requires Kept()
      ensures |inflightQ| == 0 && |retransmitQ| == 0 <==> pkts == map[]
    {
      if |inflightQ| == 0 && |retransmitQ| == 0 {
        assert forall n :: n in pkts ==> n in inflightQ || n in retransmitQ;
      } else {
        assert |inflightQ| > 0 ==> inflightQ[0] in inflightQ;
        assert |retransmitQ| > 0 ==> retransmitQ[0] in retransmitQ;
      }
    }

    /** The next number is acknowledged, selectively acknowledged before or not: the count of holes never
        underflows. */
    method AckNext(p: nat, drained: bool, now: nat, rttMin: nat) returns (a: nat)
      requires Kept() && Acking(p) && p < seqno
      modifies this`pkts, this`inflightQ, this`retransmitQ, this`inflight, this`refs, this`freed, this`queued
      modifies this`sacks, this`ended, this`rackRtt, this`rackTime, this`rackNext, this`tlpPermitted
      ensures Kept() && Acking(p + 1)
      ensures Step(old(pkts), old(ended), old(queued), pkts, ended, queued, a, p, ending && drained)
    {
      hide *;
      ghost var pkts0, sacks0, queued0, ended0 := pkts, sacks, queued, ended;
      AckReady(p, p);
      a := AckPacket(p, false, drained, now, rttMin);
      AckedNext(pkts0, sacks0, queued0, ended0, p);
      StepIs(pkts0, ended0, queued0, pkts, ended, queued, a, p, ending && drained);
    }

    /** A number ahead is selectively acknowledged. */
    method AckAhead(p: nat, n: nat, drained: bool, now: nat, rttMin: nat) returns (a: nat)
      requires Kept() && Acking(p) && p <= n < seqno
      modifies this`pkts, this`inflightQ, this`retransmitQ, this`inflight, this`refs, this`freed, this`queued
      modifies this`sacks, this`ended, this`rackRtt, this`rackTime, this`rackNext, this`tlpPermitted
      ensures Kept() && Acking(p)
      ensures Step(old(pkts), old(ended), old(queued), pkts, ended, queued, a, n, ending && drained)
    {
      hide *;
      ghost var pkts0, sacks0, queued0, ended0 := pkts, sacks, queued, ended;
      AckReady(p, n);
      a := AckPacket(n, true, drained, now, rttMin);
      AckedAhead(pkts0, sacks0, queued0, ended0, p, n);
      StepIs(pkts0, ended0, queued0, pkts, ended, queued, a, n, ending && drained);
    }

    lemma AckReady(p: nat, n: nat)
      requires Acking(p) && p <= n < seqno
      ensures n in pkts ==> pkts[n].bytes <= queued
      ensures n == p && n !in pkts && !ended ==> sacks > 0
      ensures (!ended ==> Holes(sacks, pkts, p, seqno)) && Owed(queued, unsent, ending, pkts, p, seqno)
      ensures forall n :: n in pkts ==> p <= n < seqno
    {
      if n in pkts {
        BytesWithout(pkts, p, seqno, n);
      } else if n == p {
        InRangeCount(pkts.Keys, p + 1, seqno);
        assert |pkts| == |pkts.Keys|;
      }
    }

    lemma AckedNext(pkts0: map<nat, Pkt>, sacks0: int, queued0: nat, ended0: bool, p: nat)
      requires p < seqno && (forall n :: n in pkts0 ==> p <= n < seqno)
      requires (!ended0 ==> Holes(sacks0, pkts0, p, seqno)) && Owed(queued0, unsent, ending, pkts0, p, seqno)
      requires pkts == pkts0 - {p} && (ended0 ==> ended) && queued == queued0 - if p in pkts0 then pkts0[p].bytes else 0
      requires sacks == sacks0 + if p in pkts0 then 0 else -1
      ensures Acking(p + 1)
    {
      LessCount(pkts0, p);
      LessOwed(queued0, unsent, ending, pkts0, p, seqno, p);
      BytesFrom(pkts, p, p + 1, seqno);
    }

    lemma AckedAhead(pkts0: map<nat, Pkt>, sacks0: int, queued0: nat, ended0: bool, p: nat, n: nat)
      requires p <= n < seqno && (forall n :: n in pkts0 ==> p <= n < seqno)
      requires (!ended0 ==> Holes(sacks0, pkts0, p, seqno)) && Owed(queued0, unsent, ending, pkts0, p, seqno)
      requires pkts == pkts0 - {n} && (ended0 ==> ended) && queued == queued0 - if n in pkts0 then pkts0[n].bytes else 0
      requires sacks == sacks0 + if n in pkts0 then 1 else 0
      ensures Acking(p)
    {
      LessCount(pkts0, n);
      LessOwed(queued0, unsent, ending, pkts0, p, seqno, n);
    }

    /** The cumulative loop of `process_packet`; it stops when a packet ends the stream, which is not counted. */
    method AckUpTo(ack: nat, drained: bool, now: nat, rttMin: nat) returns (stopped: bool, delivered: nat)
      requires Kept() && Acking(acked) && acked <= ack <= seqno
      modifies this`pkts, this`inflightQ, this`retransmitQ, this`inflight, this`refs, this`freed, this`queued
      modifies this`sacks, this`ended, this`rackRtt, this`rackTime, this`rackNext, this`tlpPermitted
      ensures Kept() && Acking(ack) && (stopped ==> pkts == map[] && ended)
      ensures Took(old(pkts), old(ended), old(queued), pkts, ended, queued, 0, ack, delivered, ending && drained)
      ensures stopped <==> ended != old(ended)
      ensures ack == acked ==> pkts == old(pkts) && queued == old(queued) && !stopped
    {
      hide *;
      stopped, delivered := false, 0;
      var p := acked;
      AllFrom(acked);
      TookNothing(pkts, ended, queued, 0, acked, ending && drained);
      while p < ack
        invariant acked <= p <= ack && Kept() && Acking(p) && ended == old(ended)
        invariant Took(old(pkts), old(ended), old(queued), pkts, ended, queued, 0, p, delivered, ending && drained)
        invariant p == acked ==> pkts == old(pkts) && queued == old(queued)
        decreases ack - p
      {
        ghost var pkts1, queued1 := pkts, queued;
        var a := AckNext(p, drained, now, rttMin);
        TookOne(old(pkts), old(ended), old(queued), pkts1, queued1, pkts, ended, queued, 0, p, delivered, a, ending && drained);
        p := p + 1;
        if a == 1 {
          delivered := delivered + 1;
        }
        if a == 2 {
          stopped := true;
          TookLast(old(pkts), old(ended), old(queued), pkts, ended, queued, 0, p, ack, delivered, ending && drained);
          NoneLeft(p, ack);
          return;
        }
      }
    }

    lemma AllFrom(p: nat)
      requires Acking(p)
      ensures forall n :: n in pkts ==> p <= n
    {
    }

    lemma NoneLeft(p: nat, q: nat)
      requires Acking(p) && pkts == map[] && ended && p <= q <= seqno
      ensures Acking(q)
    {
      BytesFrom(pkts, p, q, seqno);
    }

    /** `udx_sack_is_valid`. */
    predicate SackIsValid(r: Receive.Range)
      reads this`seqno, this`acked
    {
      r.end <= seqno && r.start < r.end && r.start < seqno && r.start >= acked
    }

    /** One SACK block; everything in it is acknowledged, and nothing else. */
    method AckRange(r: Receive.Range, drained: bool, now: nat, rttMin: nat) returns (delivered: nat)
      requires Kept() && Acking(acked) && acked <= r.start <= r.end <= seqno
      modifies this`pkts, this`inflightQ, this`retransmitQ, this`inflight, this`refs, this`freed, this`queued
      modifies this`sacks, this`ended, this`rackRtt, this`rackTime, this`rackNext, this`tlpPermitted
      ensures Kept() && Acking(acked)
      ensures Took(old(pkts), old(ended), old(queued), pkts, ended, queued, r.start, r.end, delivered, ending && drained)
    {
      hide *;
      delivered := 0;
      var p := r.start;
      TookNothing(pkts, ended, queued, p, p, ending && drained);
      while p != r.end
        invariant r.start <= p <= r.end && Kept() && Acking(acked) && ended == old(ended)
        invariant Took(old(pkts), old(ended), old(queued), pkts, ended, queued, r.start, p, delivered, ending && drained)
        decreases r.end - p
      {
        ghost var pkts1, queued1 := pkts, queued;
        var a := AckAhead(acked, p, drained, now, rttMin);
        TookOne(old(pkts), old(ended), old(queued), pkts1, queued1, pkts, ended, queued, r.start, p, delivered, a, ending && drained);
        p := p + 1;
        if a == 2 {
          TookLast(old(pkts), old(ended), old(queued), pkts, ended, queued, r.start, p, r.end, delivered, ending && drained);
          return;
        }
        if a == 1 {
          delivered := delivered + 1;
        }
      }
    }

    /** The number is in one of the blocks that count. */
    ghost predicate Taken(n: nat, blocks: seq<Receive.Range>)
      reads this`seqno, this`acked
    {
      exists i :: 0 <= i < |blocks| && SackIsValid(blocks[i]) && blocks[i].start <= n < blocks[i].end
    }

    lemma TakenMore(blocks: seq<Receive.Range>, i: nat)
      requires i < |blocks|
      ensures forall n: nat :: Taken(n, blocks[..i + 1]) <==> Taken(n, blocks[..i]) || (SackIsValid(blocks[i]) && blocks[i].start <= n < blocks[i].end)
    {
      forall n: nat
        ensures Taken(n, blocks[..i + 1]) <==> Taken(n, blocks[..i]) || (SackIsValid(blocks[i]) && blocks[i].start <= n < blocks[i].end)
      {
        if Taken(n, blocks[..i]) {
          var k :| 0 <= k < i && SackIsValid(blocks[..i][k]) && blocks[..i][k].start <= n < blocks[..i][k].end;
          assert blocks[..i + 1][k] == blocks[..i][k];
        }
        if Taken(n, blocks[..i + 1]) {
          var k :| 0 <= k < i + 1 && SackIsValid(blocks[..i + 1][k]) && blocks[..i + 1][k].start <= n < blocks[..i + 1][k].end;
          assert k < i ==> blocks[..i][k] == blocks[..i + 1][k];
        }
        assert blocks[..i + 1][i] == blocks[i];
      }
    }

    lemma TakenInRanges(blocks: seq<Receive.Range>)
      ensures forall n: nat :: Taken(n, blocks) ==> Receive.InRanges(n, blocks)
    {
    }

    /** Exactly the packets in a block that counts are gone. */
    ghost predicate Untaken(before: map<nat, Pkt>, after: map<nat, Pkt>, blocks: seq<Receive.Range>)
      reads this`seqno, this`acked
    {
      forall n :: n in after <==> n in before && !Taken(n, blocks)
    }

    lemma UntakenYet(pkts: map<nat, Pkt>)
      ensures Untaken(pkts, pkts, [])
    {
    }

    lemma UntakenMore(before: map<nat, Pkt>, mid: map<nat, Pkt>, after: map<nat, Pkt>, blocks: seq<Receive.Range>, i: nat)
      requires i < |blocks| && Untaken(before, mid, blocks[..i])
      requires if SackIsValid(blocks[i]) then Cleared(mid, after, blocks[i].start, blocks[i].end) else after == mid
      ensures Untaken(before, after, blocks[..i + 1])
    {
      TakenMore(blocks, i);
    }

    /** What an acknowledgement leaves. */
    ghost predicate Unacked(before: map<nat, Pkt>, after: map<nat, Pkt>, ack: nat, blocks: seq<Receive.Range>)
      reads this`seqno, this`acked
    {
      forall n :: n in after <==> n in before && n >= ack && !Taken(n, blocks)
    }

    lemma UnackedBoth(before: map<nat, Pkt>, mid: map<nat, Pkt>, after: map<nat, Pkt>, ack: nat, blocks: seq<Receive.Range>)
      requires Cleared(before, mid, 0, ack) && Untaken(mid, after, blocks)
      ensures Unacked(before, after, ack, blocks)
    {
    }

    lemma UnackedNone(before: map<nat, Pkt>, after: map<nat, Pkt>, ack: nat, blocks: seq<Receive.Range>)
      requires Cleared(before, after, 0, ack) && after == map[]
      ensures Unacked(before, after, ack, blocks)
    {
    }

    /** The SACK blocks, one after the other: exactly what is in a block that counts is acknowledged. */
    method AckRanges(blocks: seq<Receive.Range>, drained: bool, now: nat, rttMin: nat) returns (delivered: nat)
      requires Kept() && Acking(acked)
      modifies this`pkts, this`inflightQ, this`retransmitQ, this`inflight, this`refs, this`freed, this`queued
      modifies this`sacks, this`ended, this`rackRtt, this`rackTime, this`rackNext, this`tlpPermitted
      ensures Kept() && Acking(acked) && Untaken(old(pkts), pkts, blocks)
      ensures Released(old(pkts), old(ended), old(queued), pkts, ended, queued, delivered, ending && drained)
    {
      hide *;
      delivered := 0;
      var i := 0;
      UntakenYet(pkts);
      NoneReleased(pkts, ended, queued, ending && drained);
      assert blocks[..0] == [];
      while i < |blocks|
        invariant 0 <= i <= |blocks| && Kept() && Acking(acked)
        invariant Untaken(old(pkts), pkts, blocks[..i])
        invariant Released(old(pkts), old(ended), old(queued), pkts, ended, queued, delivered, ending && drained)
        decreases |blocks| - i
      {
        ValidBlock(blocks[i]);
        ghost var pkts1, ended1, queued1, d1 := pkts, ended, queued, delivered;
        var d := 0;
        if SackIsValid(blocks[i]) {
          d := AckRange(blocks[i], drained, now, rttMin);
          delivered := delivered + d;
          TookParts(pkts1, ended1, queued1, pkts, ended, queued, blocks[i].start, blocks[i].end, d, ending && drained);
        } else {
          NoneReleased(pkts, ended, queued, ending && drained);
        }
        BothReleased(old(pkts), old(ended), old(queued), pkts1, ended1, queued1, d1, pkts, ended, queued, d, ending && drained);
        UntakenMore(old(pkts), pkts1, pkts, blocks, i);
        i := i + 1;
      }
      assert blocks[..i] == blocks;
    }

    ghost predicate Comparable(s: P.Sender, from: nat, r: Receive.Range) {
      && Within(r.start, from) && Within(r.end, |s.sent|) && Within(r.start, |s.sent|) && Within(r.start, r.end)
    }

    /** The acknowledgement and the blocks are less than half a turn from where the sender stands. */
    ghost predicate Windowed(s: P.Sender, ack: nat, blocks: seq<Receive.Range>) {
      && Within(s.remoteAcked, ack) && Within(|s.sent|, ack) && (s.ended ==> s.held == {})
      && forall i :: 0 <= i < |blocks| ==> Comparable(s, s.remoteAcked, blocks[i]) && Comparable(s, ack, blocks[i])
    }

    lemma ValidBlock(r: Receive.Range)
      ensures SackIsValid(r) <==> r.end <= seqno && r.start < r.end && r.start < seqno && r.start >= acked
    {
    }

    /** What module Protocol keeps of this; `drained` is what the caller sees of the write queue. */
    ghost predicate Shows(s: P.Sender, drained: bool)
      reads this`seqno, this`acked, this`pkts, this`ended, this`ending
    {
      && seqno == |s.sent| && acked == s.remoteAcked && pkts.Keys == s.held
      && ended == s.ended && ending == s.ending && drained == (s.unsent == [] && !s.endQueued)
    }

    /** The peer runs the same receiver: its acknowledgement and its SACK blocks are consistent, and leave the
        packet it waits for in the outbox. */
    ghost predicate Honest(ack: nat, blocks: seq<Receive.Range>)
      reads this`pkts, this`acked, this`seqno
    {
      var top := if ack > acked then ack else acked;
      ack <= seqno && !Receive.InRanges(top, blocks) && (top == seqno || top in pkts)
    }

    /** The acknowledging part of `process_packet`: the cumulative loop, the new `remote_acked`, the blocks. */
    method Acknowledge(ack: nat, blocks: seq<Receive.Range>, drained: bool, now: nat, rttMin: nat, ghost s: P.Sender)
      returns (stopped: bool, delivered: nat)
      requires Kept() && Placed() && Honest(ack, blocks) && Shows(s, drained)
      modifies this`pkts, this`inflightQ, this`retransmitQ, this`inflight, this`refs, this`freed, this`queued
      modifies this`sacks, this`ended, this`rackRtt, this`rackTime, this`rackNext, this`tlpPermitted
      modifies this`acked, this`rtoCount
      ensures Kept() && Placed() && acked == if ack > old(acked) then ack else old(acked)
      ensures old(pkts) == map[] ==> pkts == map[] && queued == old(queued) && ended == old(ended) && !stopped && acked == old(acked)
      ensures stopped ==> pkts == map[] && ended && acked == seqno
      ensures Unacked(old(pkts), pkts, ack, blocks)
      ensures Released(old(pkts), old(ended), old(queued), pkts, ended, queued, delivered, ending && drained)
      ensures stopped <==> ended != old(ended)
      ensures delivered + |pkts| + (if stopped then 1 else 0) == |old(pkts)|
      ensures Windowed(s, ack, blocks) ==> Shows(P.Acknowledge(s, ack, blocks), drained)
    {
      hide *;
      PlacedParts();
      AckingNow();
      Premise(ack, blocks);
      ghost var pkts0 := pkts;
      ShowsIs(s, drained);
      stopped, delivered := AckCumulative(ack, drained, now, rttMin);
      Count(pkts0, old(ended), old(queued), pkts, ended, queued, delivered, ending && drained);
      if stopped {
        StoppedAt(pkts0, ack);
        AckedNow();
        UnackedNone(pkts0, pkts, ack, blocks);
        AckShows(s, ack, blocks, drained, pkts0, old(ended), old(queued), delivered);
        return;
      }
      var d := AckSelective(ack, blocks, drained, now, rttMin, pkts0, old(queued), delivered);
      delivered := delivered + d;
      Count(pkts0, old(ended), old(queued), pkts, ended, queued, delivered, ending && drained);
      AckShows(s, ack, blocks, drained, pkts0, old(ended), old(queued), delivered);
    }

    /** The blocks, after the cumulative loop. From an honest peer they never end the stream. */
    method AckSelective(ack: nat, blocks: seq<Receive.Range>, drained: bool, now: nat, rttMin: nat,
                        ghost pkts0: map<nat, Pkt>, ghost queued0: nat, ghost d0: nat) returns (delivered: nat)
      requires Kept() && Acking(acked) && acked >= ack && Cleared(pkts0, pkts, 0, ack)
      requires Released(pkts0, ended, queued0, pkts, ended, queued, d0, ending && drained)
      requires acked == seqno || (acked in pkts0 && !Receive.InRanges(acked, blocks))
      modifies this`pkts, this`inflightQ, this`retransmitQ, this`inflight, this`refs, this`freed, this`queued
      modifies this`sacks, this`ended, this`rackRtt, this`rackTime, this`rackNext, this`tlpPermitted
      ensures Kept() && Placed() && Unacked(pkts0, pkts, ack, blocks) && ended == old(ended)
      ensures Released(pkts0, old(ended), queued0, pkts, ended, queued, d0 + delivered, ending && drained)
    {
      hide *;
      NoneBeyond();
      ghost var pkts1, queued1 := pkts, queued;
      delivered := AckRanges(blocks, drained, now, rttMin);
      UnackedBoth(pkts0, pkts1, pkts, ack, blocks);
      BothReleased(pkts0, old(ended), queued0, pkts1, old(ended), queued1, d0, pkts, ended, queued, delivered, ending && drained);
      StillHeld(pkts0, pkts, ack, blocks);
      NotEnded(pkts1, old(ended), queued1, pkts, ended, queued, delivered, acked, ending && drained);
      AckedNow();
    }

    /** The cumulative loop and the new `remote_acked`. */
    method AckCumulative(ack: nat, drained: bool, now: nat, rttMin: nat) returns (stopped: bool, delivered: nat)
      requires Kept() && Acking(acked) && ack <= seqno
      modifies this`pkts, this`inflightQ, this`retransmitQ, this`inflight, this`refs, this`freed, this`queued
      modifies this`sacks, this`ended, this`rackRtt, this`rackTime, this`rackNext, this`tlpPermitted
      modifies this`acked, this`rtoCount
      ensures Kept() && Acking(acked) && acked == (if ack > old(acked) then ack else old(acked))
      ensures Cleared(old(pkts), pkts, 0, ack) && (stopped ==> pkts == map[] && ended) && (stopped <==> ended != old(ended))
      ensures Released(old(pkts), old(ended), old(queued), pkts, ended, queued, delivered, ending && drained)
    {
      hide *;
      stopped, delivered := false, 0;
      ghost var pkts0 := pkts;
      if ack > acked {
        stopped, delivered := AckUpTo(ack, drained, now, rttMin);
        TookParts(pkts0, old(ended), old(queued), pkts, ended, queued, 0, ack, delivered, ending && drained);
        acked := ack;
        rtoCount := 0;
      } else {
        AllFrom(acked);
        NothingYet(pkts, 0, acked);
        NothingBelow(pkts, acked, ack);
        NoneReleased(pkts, ended, queued, ending && drained);
      }
    }

    lemma UnackedKeys(before: map<nat, Pkt>, after: map<nat, Pkt>, ack: nat, blocks: seq<Receive.Range>)
      requires Unacked(before, after, ack, blocks)
      ensures forall n :: n in after ==> n in before
    {
    }

    lemma NoneBeyond()
      requires Acking(acked)
      ensures acked == seqno ==> pkts == map[]
    {
    }

    lemma StoppedAt(pkts0: map<nat, Pkt>, ack: nat)
      requires Cleared(pkts0, pkts, 0, ack) && pkts == map[] && acked >= ack && (acked == seqno || acked in pkts0)
      ensures acked == seqno
    {
    }

    /** The packet an honest peer waits for is still there. */
    lemma StillHeld(before: map<nat, Pkt>, after: map<nat, Pkt>, ack: nat, blocks: seq<Receive.Range>)
      requires Unacked(before, after, ack, blocks) && acked >= ack
      requires acked == seqno || (acked in before && !Receive.InRanges(acked, blocks))
      ensures acked == seqno || acked in after
    {
      TakenInRanges(blocks);
    }

    lemma ShowsIs(s: P.Sender, drained: bool)
      ensures Shows(s, drained) <==>
                && seqno == |s.sent| && acked == s.remoteAcked && pkts.Keys == s.held
                && ended == s.ended && ending == s.ending && drained == (s.unsent == [] && !s.endQueued)
    {
    }

    lemma BlockAgrees(s: P.Sender, r: Receive.Range)
      requires seqno == |s.sent| && acked == s.remoteAcked && Comparable(s, acked, r)
      ensures SackIsValid(r) <==> P.SackIsValid(s, r)
    {
      SeqDiffExact(s.isn + r.end, s.isn + |s.sent|);
      SeqDiffExact(s.isn + r.start, s.isn + r.end);
      SeqDiffExact(s.isn + r.start, s.isn + |s.sent|);
      SeqDiffExact(s.isn + r.start, s.isn + acked);
      hide U32, SeqDiff;
    }

    /** The comparisons of wrapped numbers in module Protocol judge a block as those of true numbers here do. */
    lemma TakenAgrees(s: P.Sender, n: nat, blocks: seq<Receive.Range>)
      requires seqno == |s.sent| && acked == s.remoteAcked
      requires forall i :: 0 <= i < |blocks| ==> Comparable(s, acked, blocks[i])
      ensures Taken(n, blocks) <==> S.SackedBy(s, n, blocks)
    {
      hide SackIsValid, P.SackIsValid, Comparable;
      forall i | 0 <= i < |blocks|
        ensures SackIsValid(blocks[i]) <==> P.SackIsValid(s, blocks[i])
      {
        BlockAgrees(s, blocks[i]);
      }
    }

    /** The whole acknowledging half is that of module Protocol. */
    lemma AckShows(s: P.Sender, ack: nat, blocks: seq<Receive.Range>, drained: bool, pkts0: map<nat, Pkt>, ended0: bool, queued0: nat,
                   d: nat)
      requires seqno == |s.sent| && pkts0.Keys == s.held && ended0 == s.ended && ending == s.ending
      requires drained == (s.unsent == [] && !s.endQueued) && ack <= seqno && acked == if ack > s.remoteAcked then ack else s.remoteAcked
      requires forall n :: n in pkts0 ==> s.remoteAcked <= n
      requires Unacked(pkts0, pkts, ack, blocks) && Released(pkts0, ended0, queued0, pkts, ended, queued, d, ending && drained)
      ensures Windowed(s, ack, blocks) ==> Shows(P.Acknowledge(s, ack, blocks), drained)
    {
      if Windowed(s, ack, blocks) {
        var u := P.Acknowledge(s, ack, blocks);
        S.AcknowledgeEffect(s, ack, blocks);
        S.AcknowledgeExact(s, ack, blocks);
        forall i | 0 <= i < |blocks|
          ensures Comparable(s.(remoteAcked := acked), acked, blocks[i])
        {
          assert Comparable(s, ack, blocks[i]) && Comparable(s, s.remoteAcked, blocks[i]);
        }
        forall n
          ensures n in pkts.Keys <==> n in u.held
        {
          TakenAgrees(s.(remoteAcked := acked), n, blocks);
        }
        assert pkts.Keys == u.held;
        assert pkts0 == map[] <==> s.held == {};
        assert pkts == map[] <==> u.held == {};
      }
    }

    /** An honest acknowledgement in module Protocol is one here. */
    lemma HonestShown(s: P.Sender, m: P.Msg, drained: bool)
      requires Shows(s, drained) && S.HonestAck(s, m)
      ensures Honest(m.ack, m.sacks)
    {
    }

    lemma AckingNow()
      requires Placed()
      ensures Acking(acked)
    {
    }

    lemma Premise(ack: nat, blocks: seq<Receive.Range>)
      requires Honest(ack, blocks) && Placed()
      ensures ack <= seqno && var top := if ack > acked then ack else acked; !Receive.InRanges(top, blocks) && (top == seqno || top in pkts)
      ensures pkts == map[] ==> acked == seqno
    {
    }

    lemma AckedNow()
      requires Acking(acked) && (acked == seqno || acked in pkts)
      ensures Placed()
    {
    }

    // ---------- a packet from the peer ----------

    /** The window the peer advertises; an open one needs no probing. */
    method WindowUpdate(rwnd: nat)
      requires Timed()
      modifies this`timer, this`sendRwnd
      ensures Timed() && sendRwnd == rwnd && (Recovers(old(timer)) ==> timer == old(timer))
    {
      if rwnd > 0 && timer.Zwp? {
        timer := NoTimer;
      }
      sendRwnd := rwnd;
    }

    /** Recovery and loss end with an acknowledgement beyond the packets sent when they began. */
    method LeaveRecovery(ack: nat)
      requires Disjoint() && ack <= seqno
      modifies this`ca
      ensures Disjoint()
    {
      if ack > highSeq && !ca.Open? {
        ca := Open;
      }
    }

    /** The timer once everything outstanding has been acknowledged. */
    method Idle()
      requires acked == seqno
      modifies this`timer
      ensures Timed()
    {
      var endQueued := ending && !ended;
      if sendRwnd == 0 && (queued > 0 || endQueued) {
        timer := Zwp;
      } else if keepalive {
        timer := Keepalive;
      } else {
        timer := NoTimer;
      }
    }

    /** After packets have been delivered: the timer, then loss detection, whose own timer takes precedence. */
    method Delivered(mayArm: bool, now: nat, reo: nat, loads: seq<nat>, rwndPackets: nat) returns (arm: bool)
      requires Kept() && Placed() && Disjoint() && clock <= now && (sendRwnd == 0 ==> rwndPackets == 0)
      requires Recovers(timer) || Timed()
      modifies this`pkts, this`inflightQ, this`retransmitQ, this`inflight, this`lostCount, this`clock
      modifies this`ca, this`highSeq, this`tlpInFlight, this`tlpIsRetrans, this`episodes
      modifies this`refs, this`sends, this`seqno, this`unsent, this`tlpEnd, this`tlpPermitted, this`timer
      ensures Valid() && clock == now && seqno >= old(seqno)
      ensures episodes == old(episodes) || episodes == old(episodes) + [old(seqno)]
    {
      hide *;
      arm := mayArm;
      if acked == seqno {
        arm := false;
        NobodyHeld();
        EmptyQueues();
        assert |inflightQ| == 0 && |retransmitQ| == 0;
        Idle();
      } else {
        TimedOrNot();
      }
      ValidIs();
      ghost var seqno0 := seqno;
      var timeout := RackDetectLoss(now, reo, loads, rwndPackets);
      if timeout > 0 {
        ValidParts();
        timer := RackReo;
        TimedNow();
        ValidIs();
        arm := false;
      }
    }

    /** The end of `process_packet`: the timer rearmed if need be, then whatever may be sent. */
    method Finish(arm: bool, loads: seq<nat>, rwndPackets: nat, now: nat)
      requires Kept() && Placed() && Disjoint() && clock == now && (sendRwnd == 0 ==> rwndPackets == 0) && (arm || Timed())
      modifies this`pkts, this`inflightQ, this`retransmitQ, this`inflight, this`refs, this`sends, this`seqno, this`unsent
      modifies this`tlpIsRetrans, this`tlpInFlight, this`tlpEnd, this`tlpPermitted, this`timer, this`clock
      ensures Valid() && clock == now && seqno >= old(seqno)
    {
      hide *;
      ghost var seqno0 := seqno;
      DisjointParts();
      if arm {
        var probe := ScheduleLossProbe();
        if probe {
          TimedNow();
        } else {
          RearmRto(true);
          Rearmed();
        }
      }
      SendPackets(loads, rwndPackets, now);
      DisjointLater(seqno0);
      ValidIs();
    }

    /** What `process_packet` does with the timer and the losses after an acknowledgement. */
    method AfterAck(advanced: bool, outstanding: bool, delivered: nat, now: nat, reo: nat, loads: seq<nat>, rwndPackets: nat)
      requires Kept() && Placed() && Disjoint() && clock <= now && (sendRwnd == 0 ==> rwndPackets == 0)
      requires (Recovers(timer) || Timed()) && (!Timed() ==> advanced && outstanding)
      modifies this`pkts, this`inflightQ, this`retransmitQ, this`inflight, this`lostCount, this`clock
      modifies this`ca, this`highSeq, this`tlpInFlight, this`tlpIsRetrans, this`episodes
      modifies this`refs, this`sends, this`seqno, this`unsent, this`tlpEnd, this`tlpPermitted, this`timer
      ensures Valid() && clock == now && seqno >= old(seqno)
      ensures episodes == old(episodes) || episodes == old(episodes) + [old(seqno)]
    {
      hide *;
      var arm := advanced && outstanding;
      if delivered > 0 {
        arm := Delivered(arm, now, reo, loads, rwndPackets);
        ValidParts();
      } else {
        LaterKept(now);
        clock := now;
        KeptIs();
      }
      Finish(arm, loads, rwndPackets, now);
    }

    lemma NobodyHeld()
      requires acked == seqno && Placed()
      ensures pkts == map[]
    {
    }

    lemma TimedOrNot()
      requires acked != seqno && (Recovers(timer) || Timed())
      ensures Timed()
    {
    }

    /** The window, and the end of a recovery. */
    method Prelude(ack: nat, rwnd: nat, newer: bool)
      requires Timed() && Disjoint() && ack <= seqno
      modifies this`timer, this`sendRwnd, this`ca
      ensures Timed() && Disjoint() && sendRwnd == if ack >= acked && newer then rwnd else old(sendRwnd)
    {
      hide *;
      if ack >= acked && newer {
        WindowUpdate(rwnd);
      }
      LeaveRecovery(ack);
    }

    /** Acknowledging, and what that leaves of the timer's invariant. */
    method AckAndTime(ack: nat, blocks: seq<Receive.Range>, drained: bool, now: nat, rttMin: nat, ghost s: P.Sender)
      returns (stopped: bool, delivered: nat)
      requires Kept() && Placed() && Timed() && Honest(ack, blocks) && Shows(s, drained)
      modifies this`pkts, this`inflightQ, this`retransmitQ, this`inflight, this`refs, this`freed, this`queued
      modifies this`sacks, this`ended, this`rackRtt, this`rackTime, this`rackNext, this`tlpPermitted
      modifies this`acked, this`rtoCount
      ensures Kept() && Placed() && acked == if ack > old(acked) then ack else old(acked)
      ensures stopped ==> acked == seqno
      ensures !stopped ==> (Recovers(timer) || Timed()) && (!Timed() ==> ack > old(acked) && old(acked) != seqno)
    {
      hide *;
      TimedParts();
      PlacedParts();
      ghost var acked0, queued0, ended0 := acked, queued, ended;
      Nobody(pkts);
      stopped, delivered := Acknowledge(ack, blocks, drained, now, rttMin, s);
      if !stopped {
        TimerAfter(acked0, queued0, ended0, ack > acked0, acked0 != seqno);
      }
    }

    /** `process_packet` from the check of the acknowledgement on. Whatever an honest peer acknowledges, the
        sender stays valid. */
    method Process(ack: nat, blocks: seq<Receive.Range>, rwnd: nat, newer: bool, drained: bool, now: nat, rttMin: nat, reo: nat,
                   loads: seq<nat>, rwndPackets: nat, ghost s: P.Sender)
      requires Valid() && clock <= now && Shows(s, drained)
      requires (if ack >= acked && newer then rwnd else sendRwnd) == 0 ==> rwndPackets == 0
      requires ack <= seqno ==> Honest(ack, blocks)
      modifies this
      ensures Valid() && acked == if old(acked) < ack <= old(seqno) then ack else old(acked)
      ensures episodes == old(episodes) || episodes == old(episodes) + [old(seqno)]
    {
      hide *;
      if seqno < ack {
        return;
      }
      ValidParts();
      Prelude(ack, rwnd, newer);
      var advanced, outstanding := ack > acked, acked != seqno;
      var stopped, delivered := AckAndTime(ack, blocks, drained, now, rttMin, s);
      if stopped {
        if acked == seqno {
          timer := if keepalive then Keepalive else NoTimer;
        }
        Ended();
        ValidIs();
      } else {
        AfterAck(advanced, outstanding, delivered, now, reo, loads, rwndPackets);
      }
    }

    lemma Nobody(pkts0: map<nat, Pkt>)
      requires forall n :: n in pkts0 ==> acked <= n < seqno
      ensures acked == seqno ==> pkts0 == map[]
    {
    }

    lemma Ended()
      requires acked == seqno && timer == (if keepalive then Keepalive else NoTimer)
      ensures Timed()
    {
    }

    lemma TimerAfter(acked0: nat, queued0: nat, ended0: bool, advanced: bool, outstanding: bool)
      requires (Recovers(timer) <==> acked0 != seqno) && (timer.Zwp? ==> sendRwnd == 0 && (queued0 > 0 || (ending && !ended0)))
      requires acked0 == seqno ==> acked == acked0 && queued == queued0 && ended == ended0
      requires outstanding <==> acked0 != seqno
      requires acked == acked0 || advanced
      ensures Recovers(timer) || Timed()
      ensures !Timed() ==> advanced && outstanding
    {
    }
  }

  /** Every packet that can arrive in a run of module Protocol acknowledges honestly, and in the window. */
  lemma ArrivesHonest(sender: Sender, run: seq<P.System>, m: P.Msg, drained: bool)
    requires P.IsRun(run) && m in run[|run| - 1].ba && sender.Shows(run[|run| - 1].a.snd, drained)
    ensures sender.Honest(m.ack, m.sacks)
    ensures P.InWindow(run[|run| - 1].a, m) ==> sender.Windowed(run[|run| - 1].a.snd, m.ack, m.sacks)
  {
    S.AcksAreHonest(run, m);
    sender.HonestShown(run[|run| - 1].a.snd, m, drained);
    S.RunSafe(run);
  }

  /** Exactly the packets from `from` up to, not including, `to` are gone. */
  ghost predicate Cleared(before: map<nat, Pkt>, after: map<nat, Pkt>, from: nat, to: nat) {
    forall n :: n in after <==> n in before && !(from <= n < to)
  }

  lemma NothingYet(pkts: map<nat, Pkt>, from: nat, to: nat)
    requires from == to || forall n :: n in pkts ==> to <= n
    ensures Cleared(pkts, pkts, from, to)
  {
  }

  lemma NothingBelow(pkts: map<nat, Pkt>, acked: nat, ack: nat)
    requires forall n :: n in pkts ==> acked <= n
    ensures ack <= acked ==> Cleared(pkts, pkts, 0, ack)
  {
  }

  lemma OneLess(before: map<nat, Pkt>, mid: map<nat, Pkt>, after: map<nat, Pkt>, from: nat, p: nat)
    requires Cleared(before, mid, from, p) && after == mid - {p} && from <= p
    ensures Cleared(before, after, from, p + 1)
  {
  }

  lemma AllGone(before: map<nat, Pkt>, after: map<nat, Pkt>, from: nat, p: nat, to: nat)
    requires Cleared(before, after, from, p) && after == map[] && p <= to
    ensures Cleared(before, after, from, to)
  {
  }

  /** Of the packets `before` only `after` are left: the stream has ended if they were the last it waited for, and
      all but the one that ended it have been counted. With nothing left before, nothing has changed. */
  ghost predicate Released(before: map<nat, Pkt>, was: bool, queued0: nat, after: map<nat, Pkt>, ended: bool, queued: nat, delivered: nat,
                           closes: bool) {
    && ended == (was || (before != map[] && after == map[] && closes))
    && delivered + |after| + (if ended != was then 1 else 0) == |before|
    && (before == map[] ==> after == map[] && queued == queued0)
  }

  lemma NoneReleased(pkts: map<nat, Pkt>, ended: bool, queued: nat, closes: bool)
    ensures Released(pkts, ended, queued, pkts, ended, queued, 0, closes)
  {
  }

  lemma BothReleased(before: map<nat, Pkt>, was: bool, queued0: nat, mid: map<nat, Pkt>, mided: bool, queued1: nat, d: nat,
                     after: map<nat, Pkt>, ended: bool, queued: nat, e: nat, closes: bool)
    requires Released(before, was, queued0, mid, mided, queued1, d, closes)
    requires Released(mid, mided, queued1, after, ended, queued, e, closes)
    ensures Released(before, was, queued0, after, ended, queued, d + e, closes)
  {
    assert mid == map[] ==> |after| == 0;
  }

  /** A packet that stays keeps the stream from ending. */
  lemma NotEnded(before: map<nat, Pkt>, was: bool, queued0: nat, after: map<nat, Pkt>, ended: bool, queued: nat, delivered: nat, n: nat,
                 closes: bool)
    requires Released(before, was, queued0, after, ended, queued, delivered, closes)
    ensures before == map[] || n in after ==> ended == was
  {
  }

  lemma Count(before: map<nat, Pkt>, was: bool, queued0: nat, after: map<nat, Pkt>, ended: bool, queued: nat, delivered: nat, closes: bool)
    requires Released(before, was, queued0, after, ended, queued, delivered, closes)
    ensures delivered + |after| + (if ended != was then 1 else 0) == |before|
    ensures before == map[] ==> after == map[] && queued == queued0 && ended == was
  {
  }

  /** One packet, or none, has been acknowledged. */
  ghost predicate Step(before: map<nat, Pkt>, was: bool, queued0: nat, after: map<nat, Pkt>, ended: bool, queued: nat, a: nat, n: nat,
                       closes: bool) {
    && after == before - {n} && a <= 2 && (a == 0 <==> n !in before) && (a == 0 ==> queued == queued0)
    && (a == 2 <==> n in before && after == map[] && closes && !was) && ended == (was || a == 2)
  }

  lemma StepIs(before: map<nat, Pkt>, was: bool, queued0: nat, after: map<nat, Pkt>, ended: bool, queued: nat, a: nat, n: nat, closes: bool)
    requires after == before - {n} && a <= 2 && (a == 0 <==> n !in before) && (n !in before ==> queued == queued0)
    requires (a == 2 <==> n in before && after == map[] && closes && !was) && ended == (was || a == 2)
    ensures Step(before, was, queued0, after, ended, queued, a, n, closes)
  {
  }

  /** The packets from `from` up to `to` have been acknowledged. */
  ghost predicate Took(before: map<nat, Pkt>, was: bool, queued0: nat, after: map<nat, Pkt>, ended: bool, queued: nat, from: nat, to: nat,
                       delivered: nat, closes: bool) {
    Cleared(before, after, from, to) && Released(before, was, queued0, after, ended, queued, delivered, closes)
  }

  lemma TookParts(before: map<nat, Pkt>, was: bool, queued0: nat, after: map<nat, Pkt>, ended: bool, queued: nat, from: nat, to: nat,
                  delivered: nat, closes: bool)
    requires Took(before, was, queued0, after, ended, queued, from, to, delivered, closes)
    ensures Cleared(before, after, from, to) && Released(before, was, queued0, after, ended, queued, delivered, closes)
  {
  }

  lemma TookNothing(pkts: map<nat, Pkt>, ended: bool, queued: nat, from: nat, to: nat, closes: bool)
    requires from == to || forall n :: n in pkts ==> to <= n
    ensures Took(pkts, ended, queued, pkts, ended, queued, from, to, 0, closes)
  {
  }

  lemma TookOne(before: map<nat, Pkt>, was: bool, queued0: nat, mid: map<nat, Pkt>, queued1: nat, after: map<nat, Pkt>, ended: bool,
                queued: nat, from: nat, p: nat, d: nat, a: nat, closes: bool)
    requires Took(before, was, queued0, mid, was, queued1, from, p, d, closes) && from <= p
    requires Step(mid, was, queued1, after, ended, queued, a, p, closes)
    ensures Took(before, was, queued0, after, ended, queued, from, p + 1, if a == 1 then d + 1 else d, closes)
    ensures a <= 2 && ended == (was || a == 2) && (a == 2 ==> !was)
  {
    LessCount(mid, p);
    OneLess(before, mid, after, from, p);
    assert p !in mid ==> after == mid;
  }

  /** The packet that ended the stream was the last. */
  lemma TookLast(before: map<nat, Pkt>, was: bool, queued0: nat, after: map<nat, Pkt>, ended: bool, queued: nat, from: nat, p: nat, to: nat,
                 delivered: nat, closes: bool)
    requires Took(before, was, queued0, after, ended, queued, from, p, delivered, closes) && ended && !was && p <= to
    ensures after == map[] && Took(before, was, queued0, after, ended, queued, from, to, delivered, closes)
  {
    AllGone(before, after, from, p, to);
  }

  lemma RestWithout(order: seq<nat>, i: nat)
    requires Distinct(order) && i < |order|
    ensures forall n :: n in order[i + 1..] <==> n in order[i..] && n != order[i]
  {
    assert order[i..] == [order[i]] + order[i + 1..];
  }

  lemma {:induction false} InRangeCount(s: set<nat>, lo: nat, hi: nat)
    requires lo <= hi && forall n :: n in s ==> lo <= n < hi
    ensures |s| <= hi - lo
    decreases hi - lo
  {
    if lo == hi {
      assert s == {};
    } else {
      InRangeCount(s - {hi - 1}, lo, hi - 1);
    }
  }

  lemma LessCount(pkts: map<nat, Pkt>, n: nat)
    ensures |pkts - {n}| == |pkts| - if n in pkts then 1 else 0
  {
    assert (pkts - {n}).Keys == pkts.Keys - {n};
  }

  lemma LessOwed(queued: nat, unsent: nat, ending: bool, pkts: map<nat, Pkt>, lo: nat, hi: nat, n: nat)
    requires Owed(queued, unsent, ending, pkts, lo, hi) && lo <= n < hi
    ensures (if n in pkts then pkts[n].bytes else 0) <= queued
    ensures Owed(queued - if n in pkts then pkts[n].bytes else 0, unsent, ending, pkts - {n}, lo, hi)
  {
    if n in pkts {
      BytesWithout(pkts, lo, hi, n);
    } else {
      assert pkts - {n} == pkts;
    }
  }

  lemma CountAt(refs: map<nat, nat>, pkts: map<nat, Pkt>, sends: set<nat>, freed: set<nat>, seqno: nat, n: nat)
    requires Counted(refs, pkts, sends, freed, seqno)
    ensures n in pkts ==> n in refs && (refs[n] == 2 <==> n in sends)
  {
  }

  lemma MarkOneMore(pkts: map<nat, Pkt>, s: set<nat>, n: nat)
    requires n in pkts
    ensures var c := Marked(pkts, s); n in c && c[n := c[n].(lost := true)] == Marked(pkts, s + {n})
  {
  }

  lemma DueMore(r: Rack, acked: nat, p: nat)
    ensures var due := p in r.pkts && !r.pkts[p].lost && !(p in r.refs && r.refs[p] == 2) && (p == acked || r.Remaining(p) < 0);
            r.Due(acked, p + 1) == if due then r.Due(acked, p) + {p} else r.Due(acked, p)
    ensures p !in r.Due(acked, p)
    ensures p in r.pkts ==> Marked(r.pkts, r.Due(acked, p))[p] == r.pkts[p]
  {
  }

  lemma AckedIsDue(r: Rack, acked: nat, seqno: nat, sends: set<nat>, pkts: map<nat, Pkt>, freed: set<nat>)
    requires Counted(r.refs, pkts, sends, freed, seqno) && pkts == Marked(r.pkts, r.Due(acked, seqno))
    requires acked in pkts && acked !in sends && acked < seqno
    ensures pkts[acked].lost
  {
  }

  lemma WaitIsOutstanding(r: Rack, q: seq<nat>, lo: nat, hi: nat)
    requires forall n :: n in r.pkts ==> lo <= n < hi
    ensures r.Longest(q) > 0 ==> lo != hi
  {
    LongestIs(r, q);
  }

  lemma ScannedLength(b: Box, c: Box, j: nat, s: set<nat>)
    requires Scanned(b, c, j, s)
    ensures j <= |b.inflightQ|
  {
  }

  lemma RestNotLost(r: Rack, q: seq<nat>, j: nat)
    requires j <= |q| && forall k :: j <= k < |q| ==> !r.Passed(q[k])
    ensures (forall n :: n in q[j..] ==> n !in r.Lost(q)) && forall k :: j <= k < |q| ==> r.Wait(q[k]) == 0
  {
  }

  lemma LostIn(r: Rack, q: seq<nat>, pkts: map<nat, Pkt>)
    ensures r.Lost(q) == Common(q, r.Lost(q)) && SamePayload(pkts, Marked(pkts, r.Lost(q)))
  {
  }

  lemma InFlight(b: Box, clock: nat, n: nat)
    requires b.Shared(clock)
    ensures Distinct(b.inflightQ) && ByTime(b.inflightQ, b.pkts) && (n in b.inflightQ <==> n in b.pkts && !b.pkts[n].lost)
  {
  }

  lemma CountOf(refs: map<nat, nat>, pkts: map<nat, Pkt>, sends: set<nat>, freed: set<nat>, seqno: nat, n: nat)
    requires Counted(refs, pkts, sends, freed, seqno) && n in pkts
    ensures n in refs && (refs[n] == 2 <==> n in sends)
  {
  }

  lemma RackOf(r: Rack, q: seq<nat>, j: nat)
    requires j < |q| && q[j] in r.pkts && q[j] in r.refs
    ensures var n := q[j];
            && (r.Passed(n) <==> r.refs[n] != 2 && RackSentAfter(r.time, U32(r.next), r.pkts[n].timeSent, U32(n + 1)))
            && r.Remaining(n) == r.pkts[n].timeSent + r.rtt + r.reo - r.now
            && (n in r.Lost(q) <==> r.Overdue(n)) && (r.Overdue(n) <==> r.Passed(n) && r.Remaining(n) <= 0)
            && r.Wait(n) == (if r.Passed(n) && r.Remaining(n) > 0 then r.Remaining(n) else 0)
            && r.Longest(q[..j + 1]) == if r.Wait(n) > r.Longest(q[..j]) then r.Wait(n) else r.Longest(q[..j])
  {
    assert q[..j + 1][..j] == q[..j];
    hide RackSentAfter;
  }

  lemma ReadyAgain(b: Box, refs: map<nat, nat>, sends: set<nat>, freed: set<nat>, seqno: nat, n: nat, clock: nat, now: nat)
    requires b.Shared(clock) && Counted(refs, b.pkts, sends, freed, seqno) && n in b.retransmitQ
    ensures n in b.pkts && b.pkts[n].lost && n !in sends && n in refs && refs[n] == 1
  {
  }

  lemma ReadyTail(b: Box, refs: map<nat, nat>, sends: set<nat>, freed: set<nat>, seqno: nat, n: nat, clock: nat, now: nat)
    requires b.Shared(clock) && Counted(refs, b.pkts, sends, freed, seqno) && n in b.pkts && !b.pkts[n].lost && n !in sends
    ensures n in refs && refs[n] == 1
    ensures b.Unlinked(n) == Box(b.pkts, Without(b.inflightQ, n), b.retransmitQ, b.inflight - b.pkts[n].size)
  {
  }

  /** After a retransmission the outbox is shared out and counted as before. */
  lemma SentLostAgain(b: Box, refs: map<nat, nat>, sends: set<nat>, freed: set<nat>, seqno: nat, n: nat, clock: nat, now: nat,
                      c: Box, refs': map<nat, nat>, sends': set<nat>)
    requires b.Shared(clock) && clock <= now && Counted(refs, b.pkts, sends, freed, seqno)
    requires n in b.pkts && n < seqno && b.pkts[n].lost && c == b.Sent(n, now, true)
    requires (refs' == refs && sends' == sends) || (refs' == refs[n := 2] && sends' == sends + {n})
    ensures c.Shared(now) && Counted(refs', c.pkts, sends', freed, seqno)
    ensures SamePayload(b.pkts, c.pkts) && c.retransmitQ == Without(b.retransmitQ, n) && |c.inflightQ| > 0 && c.pkts != map[]
  {
    LaterShared(b, clock, now);
    SentLost(b, n, now);
    assert c.pkts == b.pkts[n := c.pkts[n]] && !c.pkts[n].lost && c.pkts.Keys == b.pkts.Keys;
    CountAgain(refs, b.pkts, sends, freed, seqno, n, c.pkts[n], refs', sends');
    assert n in c.pkts;
  }

  lemma SentTailAgain(b: Box, refs: map<nat, nat>, sends: set<nat>, freed: set<nat>, seqno: nat, n: nat, clock: nat, now: nat,
                      c: Box, refs': map<nat, nat>, sends': set<nat>)
    requires b.Shared(clock) && clock <= now && Counted(refs, b.pkts, sends, freed, seqno)
    requires n in b.pkts && n < seqno && !b.pkts[n].lost && n !in sends && c == b.Unlinked(n).Sent(n, now, true)
    requires (refs' == refs && sends' == sends) || (refs' == refs[n := 2] && sends' == sends + {n})
    ensures c.Shared(now) && Counted(refs', c.pkts, sends', freed, seqno)
    ensures SamePayload(b.pkts, c.pkts) && |c.inflightQ| > 0 && c.pkts != map[]
  {
    LaterShared(b, clock, now);
    SentAgain(b, n, now);
    assert c.pkts == b.pkts[n := c.pkts[n]] && !c.pkts[n].lost && c.pkts.Keys == b.pkts.Keys;
    CountAgain(refs, b.pkts, sends, freed, seqno, n, c.pkts[n], refs', sends');
    assert n in c.pkts;
  }

  lemma CountAgain(refs: map<nat, nat>, pkts: map<nat, Pkt>, sends: set<nat>, freed: set<nat>, seqno: nat, n: nat, p: Pkt,
                   refs': map<nat, nat>, sends': set<nat>)
    requires Counted(refs, pkts, sends, freed, seqno) && n in pkts && n < seqno && !p.lost && n !in sends
    requires (refs' == refs && sends' == sends) || (refs' == refs[n := 2] && sends' == sends + {n})
    ensures Counted(refs', pkts[n := p], sends', freed, seqno)
  {
    CountChanged(refs, pkts, sends, freed, seqno, n, p);
    CountPending(refs, pkts[n := p], sends, freed, seqno, n);
  }

  lemma Launched(b: Box, refs: map<nat, nat>, sends: set<nat>, freed: set<nat>, n: nat, p: Pkt, now: nat, clock: nat,
                 c: Box, refs': map<nat, nat>, sends': set<nat>)
    requires b.Shared(clock) && clock <= now && Counted(refs, b.pkts, sends, freed, n) && n !in b.pkts && !p.lost && p.timeSent == now
    requires c == b.(pkts := b.pkts[n := p]).Sent(n, now, false)
    requires (refs' == refs[n := 1] && sends' == sends) || (refs' == refs[n := 1][n := 2] && sends' == sends + {n})
    ensures c.Shared(now) && Counted(refs', c.pkts, sends', freed, n + 1)
    ensures c.pkts == b.pkts[n := p] && c.retransmitQ == b.retransmitQ && |c.inflightQ| > 0
  {
    SentNew(b.(pkts := b.pkts), n, p, now) by {
      LaterShared(b, clock, now);
    }
    SentFresh(b, n, p, now);
    CountNew(refs, b.pkts, sends, freed, n, p);
    hide Box.Shared, Counted, Box.Sent;
    CountPending(refs[n := 1], c.pkts, sends, freed, n + 1, n);
  }

  lemma SentFresh(b: Box, n: nat, p: Pkt, now: nat)
    requires n !in b.pkts && !p.lost && p.timeSent == now
    ensures var c := b.(pkts := b.pkts[n := p]).Sent(n, now, false);
            c == Box(b.pkts[n := p], b.inflightQ + [n], b.retransmitQ, b.inflight + p.size)
  {
    assert b.pkts[n := p][n := p] == b.pkts[n := p];
  }
}
