/** The packets a sender holds in src/udx.c and the two queues that share them out, as values: what sending,
    acknowledging and losing packets do to the queues. */
module Outbox {
  import opened SeqArith

  /** `udx_packet_t`, by its number: wire size, payload, last transmission, and whether it waits for
      retransmission. */
  datatype Pkt = Pkt(size: nat, bytes: nat, timeSent: nat, lost: bool, retransmitted: bool)

  // ---------- queues of packet numbers ----------

  ghost predicate Distinct(q: seq<nat>) {
    forall i, j :: 0 <= i < j < |q| ==> q[i] != q[j]
  }

  /** `udx__queue_unlink`. */
  function Without(q: seq<nat>, n: nat): seq<nat> {
    if q == [] then [] else if q[0] == n then q[1..] else [q[0]] + Without(q[1..], n)
  }

  lemma {:induction false} WithoutMembers(q: seq<nat>, n: nat)
    requires Distinct(q)
    ensures Distinct(Without(q, n)) && forall m :: m in Without(q, n) <==> m in q && m != n
  {
    if q != [] {
      assert forall m :: m in q <==> m == q[0] || m in q[1..];
      forall j | 0 <= j < |q[1..]|
        ensures q[1..][j] != q[0]
      {
        assert q[1..][j] == q[j + 1];
      }
      WithoutMembers(q[1..], n);
      var r := Without(q[1..], n);
      assert forall m :: m in [q[0]] + r <==> m == q[0] || m in r;
      assert q[0] !in q[1..] && q[0] !in r;
    }
  }

  lemma {:induction false} WithoutLength(q: seq<nat>, n: nat)
    requires n in q
    ensures |Without(q, n)| == |q| - 1
  {
    if q[0] != n {
      WithoutLength(q[1..], n);
    }
  }

  /** Members by membership, not by place. */
  function Only(q: seq<nat>, s: set<nat>): seq<nat> {
    if q == [] then [] else (if q[0] in s then [q[0]] else []) + Only(q[1..], s)
  }

  function Others(q: seq<nat>, s: set<nat>): seq<nat> {
    if q == [] then [] else (if q[0] in s then [] else [q[0]]) + Others(q[1..], s)
  }

  lemma {:induction false} OnlyMembers(q: seq<nat>, s: set<nat>)
    requires Distinct(q)
    ensures Distinct(Only(q, s)) && Distinct(Others(q, s))
    ensures forall m :: m in Only(q, s) <==> m in q && m in s
    ensures forall m :: m in Others(q, s) <==> m in q && m !in s
  {
    if q != [] {
      OnlyMembers(q[1..], s);
      assert forall m :: m in q <==> m == q[0] || m in q[1..];
    }
  }

  lemma Associates(a: seq<nat>, b: seq<nat>, c: seq<nat>)
    ensures (a + b) + c == a + (b + c)
  {
  }

  lemma {:induction false} OnlyAppend(q: seq<nat>, n: nat, s: set<nat>)
    ensures Only(q + [n], s) == Only(q, s) + if n in s then [n] else []
    ensures Others(q + [n], s) == Others(q, s) + if n in s then [] else [n]
  {
    if q == [] {
      assert q + [n] == [n];
    } else {
      assert (q + [n])[1..] == q[1..] + [n] && (q + [n])[0] == q[0];
      OnlyAppend(q[1..], n, s);
      var h := if q[0] in s then [q[0]] else [];
      var g := if q[0] in s then [] else [q[0]];
      Associates(h, Only(q[1..], s), if n in s then [n] else []);
      Associates(g, Others(q[1..], s), if n in s then [] else [n]);
    }
  }

  // ---------- sizes and times ----------

  function SizeOf(pkts: map<nat, Pkt>, n: nat): nat {
    if n in pkts then pkts[n].size else 0
  }

  function TimeOf(pkts: map<nat, Pkt>, n: nat): nat {
    if n in pkts then pkts[n].timeSent else 0
  }

  function Total(q: seq<nat>, pkts: map<nat, Pkt>): nat {
    if q == [] then 0 else SizeOf(pkts, q[0]) + Total(q[1..], pkts)
  }

  lemma {:induction false} TotalAppend(q: seq<nat>, n: nat, pkts: map<nat, Pkt>)
    ensures Total(q + [n], pkts) == Total(q, pkts) + SizeOf(pkts, n)
  {
    if q == [] {
      assert q + [n] == [n];
    } else {
      assert (q + [n])[1..] == q[1..] + [n];
      TotalAppend(q[1..], n, pkts);
    }
  }

  lemma {:induction false} TotalFrame(q: seq<nat>, pkts: map<nat, Pkt>, pkts': map<nat, Pkt>)
    requires forall n :: n in q ==> SizeOf(pkts', n) == SizeOf(pkts, n)
    ensures Total(q, pkts') == Total(q, pkts)
  {
    if q != [] {
      TotalFrame(q[1..], pkts, pkts');
    }
  }

  lemma {:induction false} TotalWithout(q: seq<nat>, n: nat, pkts: map<nat, Pkt>)
    requires n in q
    ensures Total(Without(q, n), pkts) == Total(q, pkts) - SizeOf(pkts, n)
  {
    if q[0] != n {
      assert n in q[1..];
      TotalWithout(q[1..], n, pkts);
      assert ([q[0]] + Without(q[1..], n))[1..] == Without(q[1..], n);
    }
  }

  /** Oldest transmission first. */
  ghost predicate ByTime(q: seq<nat>, pkts: map<nat, Pkt>) {
    forall i, j :: 0 <= i < j < |q| ==> TimeOf(pkts, q[i]) <= TimeOf(pkts, q[j])
  }

  lemma {:induction false} ByTimeWithout(q: seq<nat>, n: nat, pkts: map<nat, Pkt>)
    requires ByTime(q, pkts) && Distinct(q)
    ensures ByTime(Without(q, n), pkts)
  {
    if q != [] && q[0] != n {
      ByTimeWithout(q[1..], n, pkts);
      WithoutMembers(q[1..], n);
      var r := Without(q[1..], n);
      forall j | 0 <= j < |r|
        ensures TimeOf(pkts, q[0]) <= TimeOf(pkts, r[j])
      {
        assert r[j] in q[1..];
      }
    }
  }

  lemma ByTimeFrame(q: seq<nat>, pkts: map<nat, Pkt>, pkts': map<nat, Pkt>)
    requires ByTime(q, pkts) && forall n :: n in q ==> TimeOf(pkts', n) == TimeOf(pkts, n)
    ensures ByTime(q, pkts')
  {
  }

  lemma {:induction false} ByTimeOthers(q: seq<nat>, s: set<nat>, pkts: map<nat, Pkt>)
    requires ByTime(q, pkts) && Distinct(q)
    ensures ByTime(Others(q, s), pkts)
  {
    if q != [] {
      ByTimeOthers(q[1..], s, pkts);
      OnlyMembers(q[1..], s);
      var r := Others(q[1..], s);
      forall j | 0 <= j < |r|
        ensures TimeOf(pkts, q[0]) <= TimeOf(pkts, r[j])
      {
        assert r[j] in q[1..];
      }
    }
  }

  // ---------- the outbox ----------

  /** `q` lists the packets whose `lost` flag is as given, each once. */
  ghost predicate Lists(q: seq<nat>, pkts: map<nat, Pkt>, lost: bool) {
    Distinct(q) && forall n :: n in q <==> n in pkts && pkts[n].lost == lost
  }

  /** Two maps that differ in packet `n` at most. */
  ghost predicate AgreeBut(a: map<nat, Pkt>, b: map<nat, Pkt>, n: nat) {
    forall m :: m != n ==> (m in a <==> m in b) && (m in a ==> a[m] == b[m])
  }

  lemma ListsLess(q: seq<nat>, a: map<nat, Pkt>, b: map<nat, Pkt>, n: nat, lost: bool)
    requires Lists(q, a, lost) && AgreeBut(a, b, n) && (n in b ==> b[n].lost != lost)
    ensures Lists(Without(q, n), b, lost)
  {
    WithoutMembers(q, n);
  }

  lemma ListsMore(q: seq<nat>, a: map<nat, Pkt>, b: map<nat, Pkt>, n: nat, lost: bool)
    requires Lists(q, a, lost) && AgreeBut(a, b, n) && n !in q && n in b && b[n].lost == lost
    ensures Lists(q + [n], b, lost)
  {
    assert forall m :: m in q + [n] <==> m in q || m == n;
  }

  lemma ListsSame(q: seq<nat>, a: map<nat, Pkt>, b: map<nat, Pkt>, n: nat, lost: bool)
    requires Lists(q, a, lost) && AgreeBut(a, b, n) && n !in q && (n in b ==> b[n].lost != lost)
    ensures Lists(q, b, lost)
  {
  }

  /** The in-flight queue weighs `inflight` and is in the order of the last transmissions. */
  ghost predicate Flies(q: seq<nat>, pkts: map<nat, Pkt>, inflight: int) {
    inflight == Total(q, pkts) && ByTime(q, pkts)
  }

  lemma FliesSame(q: seq<nat>, a: map<nat, Pkt>, b: map<nat, Pkt>, n: nat, inflight: int)
    requires Flies(q, a, inflight) && AgreeBut(a, b, n) && n !in q
    ensures Flies(q, b, inflight)
  {
    forall m | m in q
      ensures SizeOf(a, m) == SizeOf(b, m) && TimeOf(a, m) == TimeOf(b, m)
    {
    }
    TotalFrame(q, a, b);
    ByTimeFrame(q, a, b);
  }

  lemma FliesLess(q: seq<nat>, a: map<nat, Pkt>, n: nat, inflight: int)
    requires Flies(q, a, inflight) && Distinct(q) && n in q
    ensures Flies(Without(q, n), a, inflight - SizeOf(a, n))
  {
    TotalWithout(q, n, a);
    ByTimeWithout(q, n, a);
  }

  lemma FliesMore(q: seq<nat>, a: map<nat, Pkt>, n: nat, inflight: int)
    requires Flies(q, a, inflight) && forall m :: m in q ==> TimeOf(a, m) <= TimeOf(a, n)
    ensures Flies(q + [n], a, inflight + SizeOf(a, n))
  {
    TotalAppend(q, n, a);
  }

  /** `outgoing`, `inflight_queue`, `retransmit_queue` and `inflight`. */
  datatype Box = Box(pkts: map<nat, Pkt>, inflightQ: seq<nat>, retransmitQ: seq<nat>, inflight: int) {

    /** Every packet held is in exactly one queue, `lost` says in which, `inflight` is the size of the
        first, and that one is in the order of the last transmissions, none of them later than `now`. */
    ghost predicate Shared(now: nat) {
      && Lists(inflightQ, pkts, false) && Lists(retransmitQ, pkts, true) && Flies(inflightQ, pkts, inflight)
      && (forall n :: n in pkts ==> pkts[n].timeSent <= now)
    }

    /** `_send_packet`: the packet joins the end of the in-flight queue, wherever it was before. */
    ghost function Sent(n: nat, now: nat, again: bool): Box
      requires n in pkts
    {
      var p := pkts[n];
      Box(pkts[n := p.(timeSent := now, lost := false, retransmitted := p.retransmitted || again)],
          inflightQ + [n], if p.lost then Without(retransmitQ, n) else retransmitQ, inflight + p.size)
    }

    /** A packet leaves for good. */
    ghost function Gone(n: nat): Box
      requires n in pkts
    {
      if pkts[n].lost then Box(pkts - {n}, inflightQ, Without(retransmitQ, n), inflight)
      else Box(pkts - {n}, Without(inflightQ, n), retransmitQ, inflight - pkts[n].size)
    }

    /** A packet in flight is given up and waits for retransmission. */
    ghost function Lost(n: nat): Box
      requires n in pkts
    {
      Box(pkts[n := pkts[n].(lost := true)], Without(inflightQ, n), retransmitQ + [n], inflight - pkts[n].size)
    }

    /** A packet taken off the in-flight queue to be sent again at once. */
    ghost function Unlinked(n: nat): Box
      requires n in pkts
    {
      Box(pkts, Without(inflightQ, n), retransmitQ, inflight - pkts[n].size)
    }
  }

  lemma LaterShared(b: Box, now: nat, now': nat)
    requires b.Shared(now) && now <= now'
    ensures b.Shared(now')
  {
  }

  /** A new packet, not in any queue yet, is sent. */
  lemma SentNew(b: Box, n: nat, p: Pkt, now: nat)
    requires b.Shared(now) && n !in b.pkts && !p.lost
    ensures b.(pkts := b.pkts[n := p]).Sent(n, now, false).Shared(now)
  {
    var c := b.(pkts := b.pkts[n := p]).Sent(n, now, false);
    assert AgreeBut(b.pkts, c.pkts, n) && SizeOf(c.pkts, n) == p.size;
    hide Distinct, Total, ByTime;
    ListsMore(b.inflightQ, b.pkts, c.pkts, n, false);
    ListsSame(b.retransmitQ, b.pkts, c.pkts, n, true);
    FliesSame(b.inflightQ, b.pkts, c.pkts, n, b.inflight);
    FliesMore(b.inflightQ, c.pkts, n, b.inflight);
  }

  /** A packet waiting for retransmission is sent. */
  lemma SentLost(b: Box, n: nat, now: nat)
    requires b.Shared(now) && n in b.pkts && b.pkts[n].lost
    ensures b.Sent(n, now, true).Shared(now)
  {
    var c := b.Sent(n, now, true);
    assert AgreeBut(b.pkts, c.pkts, n) && SizeOf(c.pkts, n) == b.pkts[n].size;
    hide Distinct, Total, ByTime, Without;
    ListsMore(b.inflightQ, b.pkts, c.pkts, n, false);
    ListsLess(b.retransmitQ, b.pkts, c.pkts, n, true);
    FliesSame(b.inflightQ, b.pkts, c.pkts, n, b.inflight);
    FliesMore(b.inflightQ, c.pkts, n, b.inflight);
  }

  /** A packet in flight is unlinked and sent again. */
  lemma SentAgain(b: Box, n: nat, now: nat)
    requires b.Shared(now) && n in b.pkts && !b.pkts[n].lost
    ensures b.Unlinked(n).Sent(n, now, true).Shared(now)
  {
    var u := b.Unlinked(n);
    var c := u.Sent(n, now, true);
    var none := b.pkts - {n};
    assert AgreeBut(b.pkts, none, n) && AgreeBut(none, c.pkts, n) && AgreeBut(b.pkts, c.pkts, n) && SizeOf(c.pkts, n) == b.pkts[n].size;
    WithoutMembers(b.inflightQ, n);
    hide Distinct, Total, ByTime, Without;
    ListsLess(b.inflightQ, b.pkts, none, n, false);
    ListsMore(u.inflightQ, none, c.pkts, n, false);
    ListsSame(b.retransmitQ, b.pkts, c.pkts, n, true);
    FliesLess(b.inflightQ, b.pkts, n, b.inflight);
    FliesSame(u.inflightQ, b.pkts, c.pkts, n, u.inflight);
    FliesMore(u.inflightQ, c.pkts, n, u.inflight);
  }

  lemma GoneShared(b: Box, n: nat, now: nat)
    requires b.Shared(now) && n in b.pkts
    ensures b.Gone(n).Shared(now)
  {
    var c := b.Gone(n);
    assert AgreeBut(b.pkts, c.pkts, n);
    WithoutMembers(b.inflightQ, n);
    hide Distinct, Total, ByTime, Without;
    if b.pkts[n].lost {
      ListsLess(b.retransmitQ, b.pkts, c.pkts, n, true);
      ListsSame(b.inflightQ, b.pkts, c.pkts, n, false);
      FliesSame(b.inflightQ, b.pkts, c.pkts, n, b.inflight);
    } else {
      ListsLess(b.inflightQ, b.pkts, c.pkts, n, false);
      ListsSame(b.retransmitQ, b.pkts, c.pkts, n, true);
      FliesLess(b.inflightQ, b.pkts, n, b.inflight);
      FliesSame(c.inflightQ, b.pkts, c.pkts, n, c.inflight);
    }
  }

  lemma LostShared(b: Box, n: nat, now: nat)
    requires b.Shared(now) && n in b.pkts && !b.pkts[n].lost
    ensures b.Lost(n).Shared(now)
  {
    var c := b.Lost(n);
    assert AgreeBut(b.pkts, c.pkts, n);
    WithoutMembers(b.inflightQ, n);
    hide Distinct, Total, ByTime, Without;
    ListsLess(b.inflightQ, b.pkts, c.pkts, n, false);
    ListsMore(b.retransmitQ, b.pkts, c.pkts, n, true);
    FliesLess(b.inflightQ, b.pkts, n, b.inflight);
    FliesSame(c.inflightQ, b.pkts, c.pkts, n, c.inflight);
  }

  // ---------- a scan that gives packets up ----------

  /** The members of the queue in `s`. */
  ghost function Common(q: seq<nat>, s: set<nat>): set<nat> {
    set n | n in q && n in s
  }

  /** The packets in `s` marked as lost. */
  function Marked(pkts: map<nat, Pkt>, s: set<nat>): map<nat, Pkt> {
    map n | n in pkts :: if n in s then pkts[n].(lost := true) else pkts[n]
  }

  lemma {:induction false} WithoutAt(a: seq<nat>, n: nat, b: seq<nat>)
    requires n !in a
    ensures Without(a + [n] + b, n) == a + b
  {
    var q := a + [n] + b;
    if a == [] {
      assert q == [n] + b && q[1..] == b;
      assert a + b == b;
    } else {
      assert q[1..] == a[1..] + [n] + b;
      WithoutAt(a[1..], n, b);
      assert a + b == [a[0]] + (a[1..] + b);
    }
  }

  lemma {:induction false} NoneOf(q: seq<nat>, s: set<nat>)
    requires forall n :: n in q ==> n !in s
    ensures Only(q, s) == [] && Others(q, s) == q
  {
    if q != [] {
      NoneOf(q[1..], s);
    }
  }

  lemma {:induction false} Splits(a: seq<nat>, b: seq<nat>, s: set<nat>)
    ensures Only(a + b, s) == Only(a, s) + Only(b, s) && Others(a + b, s) == Others(a, s) + Others(b, s)
  {
    if b == [] {
      assert a + b == a;
    } else {
      var m := |b| - 1;
      Splits(a, b[..m], s);
      assert a + b == (a + b[..m]) + [b[m]] && b == b[..m] + [b[m]];
      OnlyAppend(a + b[..m], b[m], s);
      OnlyAppend(b[..m], b[m], s);
    }
  }

  /** How far a scan over the in-flight queue `q` of `b` has come: of the first `j` packets those in `s`
      have moved to the retransmit queue. */
  ghost predicate Scanned(b: Box, c: Box, j: nat, s: set<nat>) {
    && j <= |b.inflightQ|
    && c.inflightQ == Others(b.inflightQ[..j], s) + b.inflightQ[j..]
    && c.retransmitQ == b.retransmitQ + Only(b.inflightQ[..j], s)
    && c.pkts == Marked(b.pkts, Common(b.inflightQ[..j], s))
  }

  lemma ScanStart(b: Box, s: set<nat>)
    ensures Scanned(b, b, 0, s)
  {
    assert b.inflightQ[..0] == [] && b.inflightQ[0..] == b.inflightQ;
    assert b.pkts == Marked(b.pkts, {});
  }

  lemma ScanAt(b: Box, c: Box, j: nat, s: set<nat>)
    requires Scanned(b, c, j, s) && j < |b.inflightQ| && Distinct(b.inflightQ)
    ensures var i := |Others(b.inflightQ[..j], s)|; i < |c.inflightQ| && c.inflightQ[i] == b.inflightQ[j]
    ensures var n := b.inflightQ[j]; n in b.pkts ==> n in c.pkts && c.pkts[n] == b.pkts[n]
    ensures b.inflightQ[..j + 1] == b.inflightQ[..j] + [b.inflightQ[j]]
  {
    assert b.inflightQ[j] !in b.inflightQ[..j];
  }

  lemma ScanSkip(b: Box, c: Box, j: nat, s: set<nat>)
    requires Scanned(b, c, j, s) && j < |b.inflightQ| && b.inflightQ[j] !in s
    ensures Scanned(b, c, j + 1, s)
    ensures |Others(b.inflightQ[..j + 1], s)| == |Others(b.inflightQ[..j], s)| + 1
    ensures |Only(b.inflightQ[..j + 1], s)| == |Only(b.inflightQ[..j], s)|
  {
    var q, n := b.inflightQ, b.inflightQ[j];
    assert q[..j + 1] == q[..j] + [n];
    OnlyAppend(q[..j], n, s);
    assert Common(q[..j + 1], s) == Common(q[..j], s);
    assert (Others(q[..j], s) + [n]) + q[j + 1..] == Others(q[..j], s) + q[j..];
    assert Only(q[..j], s) + [] == Only(q[..j], s);
  }

  lemma ScanLose(b: Box, c: Box, j: nat, s: set<nat>)
    requires Scanned(b, c, j, s) && j < |b.inflightQ| && b.inflightQ[j] in s && Distinct(b.inflightQ)
    requires b.inflightQ[j] in b.pkts && b.inflightQ[j] in c.pkts
    ensures Scanned(b, c.Lost(b.inflightQ[j]), j + 1, s)
    ensures |Others(b.inflightQ[..j + 1], s)| == |Others(b.inflightQ[..j], s)|
    ensures |Only(b.inflightQ[..j + 1], s)| == |Only(b.inflightQ[..j], s)| + 1
  {
    var q, n := b.inflightQ, b.inflightQ[j];
    assert q[..j + 1] == q[..j] + [n];
    OnlyAppend(q[..j], n, s);
    OnlyMembers(q[..j], s);
    var a := Others(q[..j], s);
    assert n !in q[..j];
    assert a + q[j..] == a + [n] + q[j + 1..];
    WithoutAt(a, n, q[j + 1..]);
    LoseMarks(b.pkts, c.pkts, q, j, s);
    assert Others(q[..j], s) + [] == Others(q[..j], s);
    assert (b.retransmitQ + Only(q[..j], s)) + [n] == b.retransmitQ + (Only(q[..j], s) + [n]);
  }

  lemma LoseMarks(pkts: map<nat, Pkt>, marked: map<nat, Pkt>, q: seq<nat>, j: nat, s: set<nat>)
    requires j < |q| && q[j] in s && q[j] in pkts && q[j] !in q[..j]
    requires marked == Marked(pkts, Common(q[..j], s))
    ensures marked[q[j] := marked[q[j]].(lost := true)] == Marked(pkts, Common(q[..j + 1], s))
  {
    assert forall n :: n in q[..j + 1] <==> n in q[..j] || n == q[j];
  }

  /** The whole queue scanned, or as good as that: nothing in the rest of it is in `s`. */
  lemma ScanEnd(b: Box, c: Box, j: nat, s: set<nat>)
    requires Scanned(b, c, j, s) && forall n :: n in b.inflightQ[j..] ==> n !in s
    ensures c.inflightQ == Others(b.inflightQ, s) && c.retransmitQ == b.retransmitQ + Only(b.inflightQ, s)
    ensures c.pkts == Marked(b.pkts, Common(b.inflightQ, s))
  {
    var q := b.inflightQ;
    SplitsNone(q, j, s);
    SameMarks(q, j, s);
  }

  lemma SplitsNone(q: seq<nat>, j: nat, s: set<nat>)
    requires j <= |q| && forall n :: n in q[j..] ==> n !in s
    ensures Others(q, s) == Others(q[..j], s) + q[j..] && Only(q, s) == Only(q[..j], s)
  {
    NoneOf(q[j..], s);
    Splits(q[..j], q[j..], s);
    assert q == q[..j] + q[j..];
    assert Only(q[..j], s) + [] == Only(q[..j], s);
  }

  lemma SameMarks(q: seq<nat>, j: nat, s: set<nat>)
    requires j <= |q| && forall n :: n in q[j..] ==> n !in s
    ensures Common(q[..j], s) == Common(q, s)
  {
    assert q == q[..j] + q[j..];
    assert forall n :: n in q <==> n in q[..j] || n in q[j..];
  }

  // ---------- the retransmit queue rebuilt ----------

  /** The lost packets from `lo` up to, not including, `hi`, in sequence order. */
  function Listing(pkts: map<nat, Pkt>, lo: nat, hi: nat): seq<nat>
    decreases hi - lo
  {
    if hi <= lo then [] else Listing(pkts, lo, hi - 1) + if hi - 1 in pkts && pkts[hi - 1].lost then [hi - 1] else []
  }

  lemma {:induction false} ListingIs(pkts: map<nat, Pkt>, lo: nat, hi: nat)
    requires lo <= hi
    ensures forall n :: n in Listing(pkts, lo, hi) <==> n in pkts && pkts[n].lost && lo <= n < hi
    ensures forall i, j :: 0 <= i < j < |Listing(pkts, lo, hi)| ==> Listing(pkts, lo, hi)[i] < Listing(pkts, lo, hi)[j]
    decreases hi - lo
  {
    if lo < hi {
      ListingIs(pkts, lo, hi - 1);
      var q := Listing(pkts, lo, hi - 1);
      forall i | 0 <= i < |q|
        ensures q[i] < hi - 1
      {
        assert q[i] in q;
      }
    }
  }

  lemma {:induction false} ListingFrame(a: map<nat, Pkt>, b: map<nat, Pkt>, lo: nat, hi: nat)
    requires forall n :: lo <= n < hi ==> (n in a && a[n].lost <==> n in b && b[n].lost)
    ensures Listing(a, lo, hi) == Listing(b, lo, hi)
    decreases hi - lo
  {
    if lo < hi {
      ListingFrame(a, b, lo, hi - 1);
    }
  }

  /** All packets lie in the range, so the listing is the whole retransmit queue. */
  lemma ListingLists(pkts: map<nat, Pkt>, lo: nat, hi: nat)
    requires lo <= hi && forall n :: n in pkts ==> lo <= n < hi
    ensures Lists(Listing(pkts, lo, hi), pkts, true)
  {
    ListingIs(pkts, lo, hi);
  }

  /** A lost packet at `lo` heads the listing. */
  lemma {:induction false} ListingHead(pkts: map<nat, Pkt>, lo: nat, hi: nat)
    requires lo < hi && lo in pkts && pkts[lo].lost
    ensures Listing(pkts, lo, hi) != [] && Listing(pkts, lo, hi)[0] == lo
    decreases hi
  {
    if lo < hi - 1 {
      ListingHead(pkts, lo, hi - 1);
    } else {
      assert Listing(pkts, lo, lo) == [];
    }
  }

  /** The in-flight part of the outbox, while the retransmit queue is being rebuilt. */
  ghost predicate Half(pkts: map<nat, Pkt>, inflightQ: seq<nat>, inflight: int, now: nat) {
    Lists(inflightQ, pkts, false) && Flies(inflightQ, pkts, inflight) && forall n :: n in pkts ==> pkts[n].timeSent <= now
  }

  lemma HalfLose(pkts: map<nat, Pkt>, q: seq<nat>, inflight: int, now: nat, n: nat)
    requires Half(pkts, q, inflight, now) && n in pkts && !pkts[n].lost
    ensures Half(pkts[n := pkts[n].(lost := true)], Without(q, n), inflight - pkts[n].size, now)
  {
    var c := pkts[n := pkts[n].(lost := true)];
    assert AgreeBut(pkts, c, n);
    WithoutMembers(q, n);
    hide Distinct, Total, ByTime, Without;
    ListsLess(q, pkts, c, n, false);
    FliesLess(q, pkts, n, inflight);
    FliesSame(Without(q, n), pkts, c, n, inflight - pkts[n].size);
  }
}
