/** Every run of the protocol is safe. */
module ProtocolSafety {
  import opened SeqArith
  import opened Receive
  import opened Protocol
  import opened Wrappers

  // ---------- acknowledging ----------

  /** `t` is `s` with some held packets gone; the stream ends only when the last of an ended one goes. */
  ghost predicate Fewer(s: Sender, t: Sender) {
    && t == s.(held := t.held, ended := t.ended)
    && t.held <= s.held
    && (s.ended ==> t.ended)
    && (t.ended && !s.ended ==> s.ending && s.unsent == [] && !s.endQueued && t.held == {} && s.held != {})
    && (s.ending && s.unsent == [] && !s.endQueued && t.held == {} && s.held != {} ==> t.ended)
  }

  lemma {:induction false} AckUpToEffect(s: Sender, p: nat, ack: nat)
    requires Within(p, ack) && (s.ended ==> s.held == {})
    ensures var t := AckUpTo(s, p, ack);
            Fewer(s, t) && forall n :: n in t.held <==> n in s.held && !(p <= n < ack)
    decreases ack - p
  {
    SeqCompareTrue(s.isn + p, s.isn + ack);
    if p < ack {
      var s1 := AckPacket(s, p);
      if !(s1.ended && !s.ended) {
        AckUpToEffect(s1, p + 1, ack);
      }
    }
  }

  lemma {:induction false} AckRangeEffect(s: Sender, p: nat, end: nat)
    requires s.ended ==> s.held == {}
    ensures var t := AckRange(s, p, end);
            Fewer(s, t) && forall n :: n in t.held <==> n in s.held && !(p <= n < end)
    decreases end - p
  {
    if p < end {
      var s1 := AckPacket(s, p);
      if !(s1.ended && !s.ended) {
        AckRangeEffect(s1, p + 1, end);
      }
    }
  }

  lemma {:induction false} AckSacksEffect(s: Sender, sacks: seq<Range>)
    requires s.ended ==> s.held == {}
    ensures var t := AckSacks(s, sacks);
            Fewer(s, t) && forall n :: n in s.held && n !in t.held ==> InRanges(n, sacks)
    decreases |sacks|
  {
    if sacks != [] {
      var s1 := if SackIsValid(s, sacks[0]) then AckRange(s, sacks[0].start, sacks[0].end) else s;
      AckRangeEffect(s, sacks[0].start, sacks[0].end);
      AckSacksEffect(s1, sacks[1..]);
      var t := AckSacks(s1, sacks[1..]);
      forall n | n in s.held && n !in t.held
        ensures InRanges(n, sacks)
      {
        if n in s1.held {
          var i :| 0 <= i < |sacks[1..]| && sacks[1..][i].start <= n < sacks[1..][i].end;
          assert sacks[i + 1] == sacks[1..][i];
        } else {
          assert sacks[0].start <= n < sacks[0].end;
        }
      }
    }
  }

  /** What an acknowledgement that is not beyond the sender's number does. */
  lemma AcknowledgeEffect(s: Sender, ack: nat, sacks: seq<Range>)
    requires Within(s.remoteAcked, ack) && Within(|s.sent|, ack) && ack <= |s.sent|
    requires s.ended ==> s.held == {}
    requires forall n :: n in s.held ==> s.remoteAcked <= n
    ensures var t := Acknowledge(s, ack, sacks);
            && t == s.(held := t.held, ended := t.ended, remoteAcked := if ack > s.remoteAcked then ack else s.remoteAcked)
            && Fewer(s, t.(remoteAcked := s.remoteAcked))
            && (forall n :: n in t.held ==> t.remoteAcked <= n)
            && (forall n :: n in s.held && n !in t.held ==> n < ack || InRanges(n, sacks))
  {
    SeqCompareTrue(s.isn + |s.sent|, s.isn + ack);
    SeqDiffExact(s.isn + ack, s.isn + s.remoteAcked);
    var s1 := AckUpTo(s, s.remoteAcked, ack);
    AckUpToEffect(s, s.remoteAcked, ack);
    var s2 := s1.(remoteAcked := if ack > s.remoteAcked then ack else s.remoteAcked);
    if !(s1.ended && !s.ended) {
      AckSacksEffect(s2, sacks);
    }
  }

  /** A block that `udx_sack_is_valid` accepts has the number. */
  ghost predicate SackedBy(s: Sender, n: nat, sacks: seq<Range>) {
    exists i :: 0 <= i < |sacks| && SackIsValid(s, sacks[i]) && sacks[i].start <= n < sacks[i].end
  }

  lemma {:induction false} AckSacksExact(s: Sender, sacks: seq<Range>)
    requires s.ended ==> s.held == {}
    ensures forall n :: n in AckSacks(s, sacks).held <==> n in s.held && !SackedBy(s, n, sacks)
    decreases |sacks|
  {
    if sacks != [] {
      var s1 := if SackIsValid(s, sacks[0]) then AckRange(s, sacks[0].start, sacks[0].end) else s;
      AckRangeEffect(s, sacks[0].start, sacks[0].end);
      AckSacksExact(s1, sacks[1..]);
      forall n | n in s.held
        ensures SackedBy(s, n, sacks) <==> n !in s1.held || SackedBy(s1, n, sacks[1..])
      {
        SackedByRest(s, s1, n, sacks);
      }
    }
  }

  lemma SackedByRest(s: Sender, s1: Sender, n: nat, sacks: seq<Range>)
    requires sacks != [] && s1 == s.(held := s1.held, ended := s1.ended)
    ensures SackedBy(s, n, sacks) <==>
              (SackIsValid(s, sacks[0]) && sacks[0].start <= n < sacks[0].end) || SackedBy(s1, n, sacks[1..])
  {
    forall r
      ensures SackIsValid(s1, r) <==> SackIsValid(s, r)
    {
    }
    if SackedBy(s, n, sacks) {
      var i :| 0 <= i < |sacks| && SackIsValid(s, sacks[i]) && sacks[i].start <= n < sacks[i].end;
      assert i > 0 ==> sacks[1..][i - 1] == sacks[i];
    }
    if SackedBy(s1, n, sacks[1..]) {
      var i :| 0 <= i < |sacks[1..]| && SackIsValid(s1, sacks[1..][i]) && sacks[1..][i].start <= n < sacks[1..][i].end;
      assert sacks[i + 1] == sacks[1..][i];
    }
  }

  /** Exactly the packets below the acknowledgement or in an accepted block are released. */
  lemma AcknowledgeExact(s: Sender, ack: nat, sacks: seq<Range>)
    requires Within(s.remoteAcked, ack) && Within(|s.sent|, ack) && ack <= |s.sent|
    requires s.ended ==> s.held == {}
    requires forall n :: n in s.held ==> s.remoteAcked <= n
    ensures var t := Acknowledge(s, ack, sacks);
            forall n :: n in t.held <==> n in s.held && n >= ack && !SackedBy(s.(remoteAcked := t.remoteAcked), n, sacks)
  {
    SeqCompareTrue(s.isn + |s.sent|, s.isn + ack);
    SeqDiffExact(s.isn + ack, s.isn + s.remoteAcked);
    var s1 := AckUpTo(s, s.remoteAcked, ack);
    AckUpToEffect(s, s.remoteAcked, ack);
    var s2 := s1.(remoteAcked := if ack > s.remoteAcked then ack else s.remoteAcked);
    if !(s1.ended && !s.ended) {
      AckSacksEffect(s2, sacks);
      AckSacksExact(s2, sacks);
      forall n
        ensures SackedBy(s2, n, sacks) <==> SackedBy(s.(remoteAcked := s2.remoteAcked), n, sacks)
      {
        SameJudge(s2, s.(remoteAcked := s2.remoteAcked), n, sacks);
      }
    }
  }

  lemma SameJudge(s: Sender, t: Sender, n: nat, sacks: seq<Range>)
    requires t == s.(held := t.held, ended := t.ended)
    ensures SackedBy(s, n, sacks) <==> SackedBy(t, n, sacks)
  {
    forall r
      ensures SackIsValid(s, r) <==> SackIsValid(t, r)
    {
    }
  }

  /** The packet at `remoteAcked` has never been taken away by a SACK. */
  lemma NeverSackedAway(s: Sender, r: Receiver, acks: set<Msg>)
    requires AckNet(r, acks) && Attested(s, r, acks) && s.remoteAcked <= |s.sent|
    ensures s.remoteAcked == |s.sent| || s.remoteAcked in s.held
  {
    forall m' | m' in acks
      ensures !InRanges(s.remoteAcked, m'.sacks)
    {
      if s.remoteAcked != 0 {
        var m :| m in acks && m.ack == s.remoteAcked;
        assert !InRanges(m.ack, m'.sacks);
      }
    }
  }

  lemma AcknowledgeKeeps(s: Sender, r: Receiver, data: set<Msg>, acks: set<Msg>, m: Msg)
    requires Direction(s, r, data, acks) && m in acks
    requires Within(s.remoteAcked, m.ack) && Within(|s.sent|, m.ack)
    ensures Direction(Acknowledge(s, m.ack, m.sacks), r, data, acks)
  {
    AcknowledgeEffect(s, m.ack, m.sacks);
    var t := Acknowledge(s, m.ack, m.sacks);
    forall n | t.remoteAcked <= n < |t.sent| && n !in t.held
      ensures Sacked(n, acks)
    {
      if n in s.held {
        assert InRanges(n, m.sacks);
      }
    }
  }

  // ---------- receiving ----------

  lemma BytesAppend(segs: seq<Seg>, n: nat)
    requires n < |segs|
    ensures Bytes(segs[..n + 1]) == Bytes(segs[..n]) + segs[n].data
  {
    assert segs[..n + 1][..n] == segs[..n];
  }

  /** `ReceiverOk`, except that the next packet in line may be waiting in a block. */
  ghost predicate Undrained(s: Sender, r: Receiver) {
    && r.irs == s.isn
    && r.ack <= |s.sent|
    && (forall n :: n in r.held ==> r.ack <= n < |s.sent| && r.held[n] == s.sent[n])
    && r.read == Bytes(s.sent[..r.ack])
    && (r.endingRemote ==> r.remoteEnded < |s.sent| && s.sent[r.remoteEnded].end)
    && (r.endingRemote ==> Got(r, r.remoteEnded) && Within(r.remoteEnded, r.ack))
    && (EndSent(s) && Got(r, |s.sent| - 1) ==> r.endingRemote)
    && (r.endedRemote ==> r.endingRemote && r.remoteEnded < r.ack)
  }

  ghost predicate Grown(r: Receiver, t: Receiver) {
    r.ack <= t.ack && forall n :: Got(r, n) ==> Got(t, n)
  }

  lemma ConsumeKeeps(s: Sender, r: Receiver)
    requires SenderOk(s) && Undrained(s, r) && !r.endedRemote && r.ack in r.held
    ensures var t := Consume(r, r.held[r.ack]); Undrained(s, t) && Grown(r, t)
  {
    BytesAppend(s.sent, r.ack);
  }

  lemma {:induction false} DrainKeeps(s: Sender, r: Receiver)
    requires SenderOk(s) && Undrained(s, r)
    ensures ReceiverOk(s, Drain(r)) && Grown(r, Drain(r))
    ensures var t := Drain(r); t == r.(ack := t.ack, held := t.held, read := t.read)
    decreases |r.held|
  {
    if !r.endedRemote && r.ack in r.held {
      var r1 := Consume(r, r.held[r.ack]);
      ConsumeKeeps(s, r);
      assert r1.held.Keys == r.held.Keys - {r.ack};
      DrainKeeps(s, r1);
    }
  }

  lemma StoredInLine(s: Sender, r: Receiver)
    requires SenderOk(s) && ReceiverOk(s, r) && !r.endedRemote
    requires r.ack < |s.sent| && s.sent[r.ack].data != []
    ensures var t := Stored(r, r.ack, s.sent[r.ack]); Undrained(s, t) && Grown(r, t)
  {
    BytesAppend(s.sent, r.ack);
  }

  lemma StoredOutOfOrder(s: Sender, r: Receiver, n: nat)
    requires SenderOk(s) && ReceiverOk(s, r) && !r.endedRemote
    requires r.ack <= n < |s.sent| && Within(n, r.ack) && (n == r.ack ==> s.sent[n].data == [])
    ensures var t := Stored(r, n, s.sent[n]); Undrained(s, t) && Grown(r, t)
  {
    SeqCompareTrue(r.irs + n, r.irs + r.ack);
  }

  lemma StoredKeeps(s: Sender, r: Receiver, n: nat)
    requires SenderOk(s) && ReceiverOk(s, r) && !r.endedRemote
    requires r.ack <= n < |s.sent| && Within(n, r.ack)
    ensures var t := Stored(r, n, s.sent[n]); Undrained(s, t) && Grown(r, t) && !t.endedRemote
  {
    if n == r.ack && s.sent[n].data != [] {
      StoredInLine(s, r);
    } else {
      StoredOutOfOrder(s, r, n);
    }
  }

  lemma IncomingStored(s: Sender, r: Receiver, n: nat)
    requires SenderOk(s) && ReceiverOk(s, r) && !r.endedRemote && r.ack <= n < |s.sent| && Within(n, r.ack)
    ensures var t := Drain(Stored(r, n, s.sent[n])); ReceiverOk(s, t) && Grown(r, t) && !t.endedRemote
  {
    StoredKeeps(s, r, n);
    hide Drain, Stored, SenderOk;
    DrainKeeps(s, Stored(r, n, s.sent[n]));
  }

  lemma IncomingIdle(s: Sender, r: Receiver)
    requires SenderOk(s) && ReceiverOk(s, r)
    ensures Drain(r) == r && Grown(r, r)
  {
  }

  lemma IncomingGrows(s: Sender, r: Receiver, data: set<Msg>, m: Msg)
    requires SenderOk(s) && ReceiverOk(s, r) && DataNet(s, data) && m in data && Within(m.num, r.ack)
    ensures var t := Incoming(r, m.num, m.seg); ReceiverOk(s, t) && Grown(r, t) && t.endedRemote == r.endedRemote
  {
    SeqCompareTrue(r.irs + r.ack, r.irs + m.num);
    if r.ack <= m.num && m.seg.Some? {
      assert r.endedRemote ==> r.remoteEnded == |s.sent| - 1;
      IncomingStored(s, r, m.num);
    } else {
      IncomingIdle(s, r);
    }
    hide Drain, Stored, ReceiverOk, SenderOk;
  }

  lemma IncomingKeeps(s: Sender, r: Receiver, data: set<Msg>, acks: set<Msg>, m: Msg)
    requires Direction(s, r, data, acks) && m in data && Within(m.num, r.ack)
    ensures Direction(s, Incoming(r, m.num, m.seg), data, acks)
    ensures Incoming(r, m.num, m.seg).endedRemote == r.endedRemote
  {
    IncomingGrows(s, r, data, m);
  }

  // ---------- sending ----------

  /** A packet an endpoint may put on the network: its number and content are the sender's, its
      acknowledgement and SACK ranges the receiver's. */
  ghost predicate Truthful(s: Sender, r: Receiver, m: Msg) {
    && m.num <= |s.sent| && (m.seg.Some? ==> m.num < |s.sent| && m.seg.value == s.sent[m.num])
    && m.ack == r.ack && (forall n :: InRanges(n, m.sacks) ==> n in r.held)
  }

  lemma EmitData(s: Sender, r: Receiver, p: Receiver, data: set<Msg>, acks: set<Msg>, m: Msg)
    requires Direction(s, p, data, acks) && Truthful(s, r, m)
    ensures Direction(s, p, data + {m}, acks)
  {
  }

  lemma EmitAck(s: Sender, r: Receiver, p: Sender, data: set<Msg>, acks: set<Msg>, m: Msg)
    requires Direction(p, r, data, acks) && Truthful(s, r, m)
    ensures Direction(p, r, data, acks + {m})
  {
    var net := acks + {m};
    forall m1, m2 | m1 in net && m2 in net
      ensures !InRanges(m1.ack, m2.sacks)
    {
      if m1 == m && m2 in acks {
        assert InRanges(m1.ack, m2.sacks) ==> Got(r, m1.ack);
      }
    }
    forall n | Sacked(n, acks)
      ensures Sacked(n, net)
    {
      var m1 :| m1 in acks && InRanges(n, m1.sacks);
      assert m1 in net;
    }
    forall m1, n {:trigger InRanges(n, m1.sacks)} | m1 in net && InRanges(n, m1.sacks)
      ensures m1.ack < n && Got(r, n)
    {
    }
    if p.remoteAcked != 0 {
      var m1 :| m1 in acks && m1.ack == p.remoteAcked;
      assert m1 in net;
    }
  }

  lemma BytesPush(segs: seq<Seg>, seg: Seg)
    ensures Bytes(segs + [seg]) == Bytes(segs) + seg.data
  {
    assert (segs + [seg])[..|segs|] == segs;
  }

  /** The sender after `_send_new_packet`. */
  function Pushed(s: Sender, end: bool): Sender {
    s.(building := [], endQueued := s.endQueued && !end,
       sent := s.sent + [Seg(s.building, end)], held := s.held + {|s.sent|})
  }

  lemma PushedOk(s: Sender, end: bool)
    requires SenderOk(s)
    requires end ==> s.unsent == [] && s.endQueued
    requires s.building != [] || end
    ensures SenderOk(Pushed(s, end)) && !EndSent(s)
  {
    BytesPush(s.sent, Seg(s.building, end));
    assert s.written == Bytes(s.sent) + s.building + s.unsent == Bytes(Pushed(s, end).sent) + [] + s.unsent;
  }

  lemma PushedReceiver(s: Sender, r: Receiver, end: bool)
    requires ReceiverOk(s, r) && !EndSent(s)
    ensures ReceiverOk(Pushed(s, end), r)
  {
    assert Pushed(s, end).sent[..r.ack] == s.sent[..r.ack];
  }

  lemma SendNewKeeps(s: Sender, r: Receiver, data: set<Msg>, acks: set<Msg>, end: bool)
    requires Direction(s, r, data, acks)
    requires end ==> s.unsent == [] && s.endQueued
    requires s.building != [] || end
    ensures Direction(Pushed(s, end), r, data, acks)
  {
    PushedOk(s, end);
    PushedReceiver(s, r, end);
  }

  // ---------- one step ----------

  ghost predicate BothDirections(e: Endpoint, p: Endpoint, out: set<Msg>, inbox: set<Msg>) {
    Direction(e.snd, p.rcv, out, inbox) && Direction(p.snd, e.rcv, inbox, out)
  }

  lemma EmitKeeps(e: Endpoint, p: Endpoint, out: set<Msg>, inbox: set<Msg>, m: Msg)
    requires BothDirections(e, p, out, inbox) && Truthful(e.snd, e.rcv, m)
    ensures BothDirections(e, p, out + {m}, inbox)
  {
    EmitData(e.snd, e.rcv, p.rcv, out, inbox, m);
    EmitAck(e.snd, e.rcv, p.snd, inbox, out, m);
  }

  lemma AfterAckKeeps(s: Sender, r: Receiver, data: set<Msg>, acks: set<Msg>)
    requires Direction(s, r, data, acks)
    ensures Direction(s, AfterAck(r), data, acks)
    ensures AfterAck(r).endedRemote <==> EndSent(s) && r.ack == |s.sent|
  {
    if r.endingRemote {
      SeqCompareTrue(r.irs + r.remoteEnded, r.irs + r.ack);
    }
  }

  lemma WriteKeeps(s: Sender, r: Receiver, out: set<Msg>, acks: set<Msg>, data: seq<Byte>, end: bool, wants: bool)
    requires Direction(s, r, out, acks) && !s.ending
    ensures Direction(s.(written := s.written + data, unsent := s.unsent + data, endQueued := end,
                         ending := end, wantsTimewait := wants), r, out, acks)
  {
    assert s.written + data == Bytes(s.sent) + s.building + (s.unsent + data);
  }

  lemma FillKeeps(s: Sender, r: Receiver, out: set<Msg>, acks: set<Msg>, count: nat)
    requires Direction(s, r, out, acks) && count <= |s.unsent|
    ensures Direction(s.(unsent := s.unsent[count..], building := s.building + s.unsent[..count]), r, out, acks)
  {
    assert Bytes(s.sent) + s.building + s.unsent == Bytes(s.sent) + (s.building + s.unsent[..count]) + s.unsent[count..];
    assert EndSent(s) ==> s.building + s.unsent[..count] == [] && s.unsent[count..] == [];
  }

  lemma ActKeepsDirections(e: Endpoint, p: Endpoint, out: set<Msg>, inbox: set<Msg>, act: Action)
    requires BothDirections(e, p, out, inbox) && Enabled(e, act, inbox)
    ensures var (e', emitted) := Act(e, act, inbox); BothDirections(e', p, out + emitted, inbox)
  {
    var (e', emitted) := Act(e, act, inbox);
    assert out + {} == out;
    match act {
      case Write(data) => WriteKeeps(e.snd, p.rcv, out, inbox, data, e.snd.endQueued, e.snd.wantsTimewait);
      case WriteEnd(data) => WriteKeeps(e.snd, p.rcv, out, inbox, data, true, e'.snd.wantsTimewait);
      case Fill(count) => FillKeeps(e.snd, p.rcv, out, inbox, count);
      case SendNew(end) =>
        SendNewKeeps(e.snd, p.rcv, out, inbox, end);
        var m := Header(e).(seg := Some(Seg(e.snd.building, end)));
        assert e'.snd.sent[|e.snd.sent|] == m.seg.value;
        EmitKeeps(e', p, out, inbox, m);
      case Retransmit(num) => EmitKeeps(e, p, out, inbox, Header(e).(num := num, seg := Some(e.snd.sent[num])));
      case Heartbeat => EmitKeeps(e, p, out, inbox, Header(e).(heartbeat := true));
      case SendAck(sacks) =>
        var m := Header(e).(sacks := sacks);
        SackListHeld(e.rcv.held, sacks);
        EmitKeeps(e, p, out, inbox, m);
        AfterAckKeeps(p.snd, e.rcv, inbox, out + {m});
      case Deliver(m) =>
        if e.phase.TimeWait? && m.seg.Some? {
          EmitKeeps(e, p, out, inbox, Header(e));
        } else if e.phase.Open? && !m.heartbeat {
          AcknowledgeKeeps(e.snd, p.rcv, out, inbox, m);
          IncomingKeeps(p.snd, e.rcv, inbox, out, m);
        }
      case CloseEnded =>
      case Abort =>
    }
  }

  lemma SackListHeld(held: map<nat, Seg>, sacks: seq<Range>)
    requires SackList(held, sacks)
    ensures forall n :: InRanges(n, sacks) ==> n in held
  {
  }

  lemma DeliverKeepsClosing(e: Endpoint, p: Endpoint, out: set<Msg>, inbox: set<Msg>, m: Msg)
    requires BothDirections(e, p, out, inbox) && Enabled(e, Deliver(m), inbox)
    requires Closing(e, p, out) && Closing(p, e, inbox)
    ensures var e' := Act(e, Deliver(m), inbox).0; Closing(e', p, out) && Closing(p, e', inbox)
    ensures e.phase.TimeWait? || Act(e, Deliver(m), inbox).1 == {}
  {
    if e.phase.Open? && !m.heartbeat {
      AcknowledgeKeeps(e.snd, p.rcv, out, inbox, m);
      AcknowledgeEffect(e.snd, m.ack, m.sacks);
      IncomingGrows(p.snd, e.rcv, inbox, m);
      hide Incoming, Acknowledge;
      assert e.rcv.endedRemote ==> Incoming(e.rcv, m.num, m.seg).ack == |p.snd.sent|;
    }
  }

  lemma SendAckKeepsClosing(e: Endpoint, p: Endpoint, out: set<Msg>, inbox: set<Msg>, sacks: seq<Range>)
    requires BothDirections(e, p, out, inbox) && Enabled(e, SendAck(sacks), inbox)
    requires Closing(e, p, out) && Closing(p, e, inbox)
    ensures var (e', emitted) := Act(e, SendAck(sacks), inbox); Closing(e', p, out + emitted) && Closing(p, e', inbox)
  {
    AfterAckKeeps(p.snd, e.rcv, inbox, out);
    hide Receive.AfterAck, Direction;
  }

  /** Closing(e, p) and Closing(p, e) after `e` acted. */
  lemma ActKeepsClosing(e: Endpoint, p: Endpoint, out: set<Msg>, inbox: set<Msg>, act: Action)
    requires BothDirections(e, p, out, inbox) && Enabled(e, act, inbox)
    requires Closing(e, p, out) && Closing(p, e, inbox)
    ensures var (e', emitted) := Act(e, act, inbox); Closing(e', p, out + emitted) && Closing(p, e', inbox)
  {
    match act {
      case SendAck(sacks) => SendAckKeepsClosing(e, p, out, inbox, sacks);
      case Deliver(m) =>
        DeliverKeepsClosing(e, p, out, inbox, m);
        assert out + {} == out;
      case _ =>
    }
  }

  lemma StepKeeps(s: System, act: Action, t: System)
    requires Inv(s) && StepA(s, act, t)
    ensures Inv(t)
  {
    ActKeepsDirections(s.a, s.b, s.ab, s.ba, act);
    ActKeepsClosing(s.a, s.b, s.ab, s.ba, act);
  }

  /** The invariant holds at every moment of every run. */
  lemma {:induction false} RunSafe(run: seq<System>)
    requires IsRun(run)
    ensures Inv(run[|run| - 1])
    decreases |run|
  {
    var n := |run| - 1;
    if n == 0 {
    } else {
      RunSafe(run[..n]);
      var s, t := run[n - 1], run[n];
      assert Next(s, t);
      var act :| StepA(s, act, t) || StepA(Swap(s), act, Swap(t));
      if StepA(s, act, t) {
        StepKeeps(s, act, t);
      } else {
        StepKeeps(Swap(s), act, Swap(t));
      }
    }
  }

  // ---------- what the invariant means ----------

  lemma {:induction false} BytesPrefix(segs: seq<Seg>, n: nat)
    requires n <= |segs|
    ensures Bytes(segs[..n]) <= Bytes(segs)
    decreases |segs|
  {
    if n < |segs| {
      var m := |segs| - 1;
      BytesPrefix(segs[..m], n);
      assert segs[..m][..n] == segs[..n];
    } else {
      assert segs[..n] == segs;
    }
  }

  /** Delivery, at any moment of any run, in either direction: what has been read is a prefix of what was
      written, in order, without repetition or gap, and the three positions keep their true order. */
  lemma Delivery(run: seq<System>)
    requires IsRun(run)
    ensures var s := run[|run| - 1];
            && s.b.rcv.read <= s.a.snd.written && s.a.rcv.read <= s.b.snd.written
            && s.a.snd.remoteAcked <= s.b.rcv.ack <= |s.a.snd.sent|
            && s.b.snd.remoteAcked <= s.a.rcv.ack <= |s.b.snd.sent|
  {
    RunSafe(run);
    var s := run[|run| - 1];
    BytesPrefix(s.a.snd.sent, s.b.rcv.ack);
    BytesPrefix(s.b.snd.sent, s.a.rcv.ack);
  }

  /** The two endpoints of a run can change roles. */
  lemma {:induction false} SwapRun(run: seq<System>)
    requires IsRun(run)
    ensures IsRun(seq(|run|, i requires 0 <= i < |run| => Swap(run[i])))
  {
    var back := seq(|run|, i requires 0 <= i < |run| => Swap(run[i]));
    forall i | 0 <= i < |back| - 1
      ensures Next(back[i], back[i + 1])
    {
      var s, t := run[i], run[i + 1];
      assert Next(s, t);
      var act :| StepA(s, act, t) || StepA(Swap(s), act, Swap(t));
      assert Swap(Swap(s)) == s && Swap(Swap(t)) == t;
      assert StepA(Swap(s), act, Swap(t)) || StepA(Swap(Swap(s)), act, Swap(Swap(t)));
    }
  }

  /** What closing means for the bytes from `e` to `p`. */
  ghost predicate Graceful(e: Endpoint, p: Endpoint) {
    && (p.rcv.endedRemote ==> e.snd.ending && p.rcv.ack == |e.snd.sent| && p.rcv.read == e.snd.written)
    && (e.snd.ended ==> e.snd.remoteAcked == p.rcv.ack == |e.snd.sent| && p.rcv.read == e.snd.written)
  }

  lemma DirectionGraceful(e: Endpoint, p: Endpoint, data: set<Msg>, acks: set<Msg>)
    requires Direction(e.snd, p.rcv, data, acks)
    ensures Graceful(e, p)
  {
    assert e.snd.sent[..|e.snd.sent|] == e.snd.sent;
    NeverSackedAway(e.snd, p.rcv, acks);
  }

  /** EOF is reported only after every byte and the END packet have been consumed; and a sender counts its
      stream as ended only once the peer has consumed all of it and said so. */
  lemma GracefulClose(run: seq<System>)
    requires IsRun(run)
    ensures var s := run[|run| - 1]; Graceful(s.a, s.b) && Graceful(s.b, s.a)
  {
    RunSafe(run);
    var s := run[|run| - 1];
    DirectionGraceful(s.a, s.b, s.ab, s.ba);
    DirectionGraceful(s.b, s.a, s.ba, s.ab);
  }

  /** The packet a sender waits for is always still held: no SACK ever took it. */
  lemma OldestIsHeld(run: seq<System>)
    requires IsRun(run)
    ensures var a := run[|run| - 1].a.snd; a.remoteAcked == |a.sent| || a.remoteAcked in a.held
    ensures var b := run[|run| - 1].b.snd; b.remoteAcked == |b.sent| || b.remoteAcked in b.held
  {
    RunSafe(run);
    var s := run[|run| - 1];
    NeverSackedAway(s.a.snd, s.b.rcv, s.ba);
    NeverSackedAway(s.b.snd, s.a.rcv, s.ab);
  }

  /** What a sender may count on in a packet from a peer that runs the same receiver: the acknowledgement is
      not beyond what was sent, and the packet the peer then waits for is still held and in no SACK block. */
  ghost predicate HonestAck(s: Sender, m: Msg) {
    var top := if m.ack > s.remoteAcked then m.ack else s.remoteAcked;
    m.ack <= |s.sent| && !InRanges(top, m.sacks) && (top == |s.sent| || top in s.held)
  }

  lemma DirectionHonest(s: Sender, r: Receiver, data: set<Msg>, acks: set<Msg>, m: Msg)
    requires Direction(s, r, data, acks) && m in acks
    ensures HonestAck(s, m)
  {
    var top := if m.ack > s.remoteAcked then m.ack else s.remoteAcked;
    var m0 := m;
    if top != m.ack && s.remoteAcked != 0 {
      m0 :| m0 in acks && m0.ack == s.remoteAcked;
    }
    assert m0 in acks && m0.ack == top;
    assert !Sacked(top, acks);
  }

  /** Every packet that can arrive in a run acknowledges honestly. */
  lemma AcksAreHonest(run: seq<System>, m: Msg)
    requires IsRun(run)
    ensures var s := run[|run| - 1]; (m in s.ba ==> HonestAck(s.a.snd, m)) && (m in s.ab ==> HonestAck(s.b.snd, m))
  {
    RunSafe(run);
    var s := run[|run| - 1];
    if m in s.ba {
      DirectionHonest(s.a.snd, s.b.rcv, s.ab, s.ba, m);
    }
    if m in s.ab {
      DirectionHonest(s.b.snd, s.a.rcv, s.ba, s.ab, m);
    }
  }

  /** An END packet of an endpoint that does not want TIME-WAIT acknowledges the peer's END. */
  ghost predicate LastWord(e: Endpoint, p: Endpoint, out: set<Msg>) {
    forall m :: m in out && m.seg.Some? && m.seg.value.end && !e.snd.wantsTimewait ==> EndSent(p.snd) && m.ack == |p.snd.sent|
  }

  /** Once both have ended at least one endpoint wants TIME-WAIT, and every END packet of one that does not
      acknowledges the peer's END. */
  lemma TimeWaitSuffices(run: seq<System>)
    requires IsRun(run)
    ensures var s := run[|run| - 1];
            && (s.a.snd.ending && s.b.snd.ending ==> s.a.snd.wantsTimewait || s.b.snd.wantsTimewait)
            && LastWord(s.a, s.b, s.ab) && LastWord(s.b, s.a, s.ba)
  {
    RunSafe(run);
  }

  /** Why TIME-WAIT can be skipped: the END packet of an endpoint that does not want it completes the other
      endpoint's stream wherever it arrives. By SwapRun the same holds the other way. */
  lemma LastEndCompletes(run: seq<System>, m: Msg)
    requires IsRun(run)
    requires var s := run[|run| - 1];
             && m in s.ab && m.seg.Some? && m.seg.value.end && !m.heartbeat && !s.a.snd.wantsTimewait
             && s.b.phase.Open? && Enabled(s.b, Deliver(m), s.ab)
    ensures var s := run[|run| - 1];
            var b := Act(s.b, Deliver(m), s.ab).0;
            b.snd.ended && b.snd.remoteAcked == |b.snd.sent| && s.a.rcv.read == b.snd.written
  {
    RunSafe(run);
    var s := run[|run| - 1];
    LastEndActs(s.a, s.b, s.ab, s.ba, m);
  }

  lemma LastEndActs(e: Endpoint, p: Endpoint, out: set<Msg>, inbox: set<Msg>, m: Msg)
    requires BothDirections(e, p, out, inbox) && Closing(e, p, out)
    requires m in out && m.seg.Some? && m.seg.value.end && !m.heartbeat && !e.snd.wantsTimewait
    requires p.phase.Open? && Enabled(p, Deliver(m), out)
    ensures var q := Act(p, Deliver(m), out).0;
            q.snd.ended && q.snd.remoteAcked == |q.snd.sent| && e.rcv.read == q.snd.written
  {
    AcknowledgeKeeps(p.snd, e.rcv, inbox, out, m);
    AcknowledgeEffect(p.snd, m.ack, m.sacks);
    assert p.snd.sent[..|p.snd.sent|] == p.snd.sent;
    hide Incoming, Acknowledge;
  }
}
