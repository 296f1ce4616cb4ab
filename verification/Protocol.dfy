/** Two endpoints of src/udx.c and a network that drops, duplicates, delays and reorders.
    Which held packet is retransmitted, when, and how much new data goes out is left open, so the
    results hold for every congestion control, pacing and loss detection, that of src/udx.c included. */
module Protocol {
  import opened SeqArith
  import opened Receive
  import opened Wrappers

  /** Sequence numbers are true numbers counted from the first one; the wire carries `U32(isn + n)`. */
  datatype Sender = Sender(
    isn: nat,
    written: seq<Byte>,      // everything handed to udx_stream_write and udx_stream_write_end
    unsent: seq<Byte>,       // the write queue
    building: seq<Byte>,     // stream->pkt, the packet under construction
    endQueued: bool,         // the END buffer is in the write queue
    ending: bool,
    wantsTimewait: bool,
    ended: bool,
    sent: seq<Seg>,          // every packet sent, by number: |sent| is stream->seq
    remoteAcked: nat,
    held: set<nat>)          // stream->outgoing

  datatype Phase = Open | TimeWait | Gone

  datatype Endpoint = Endpoint(snd: Sender, rcv: Receiver, phase: Phase)

  datatype Msg = Msg(heartbeat: bool, num: nat, ack: nat, seg: Option<Seg>, sacks: seq<Range>)

  datatype System = System(a: Endpoint, b: Endpoint, ab: set<Msg>, ba: set<Msg>)

  // ---------- one endpoint ----------

  datatype Action =
    | Write(data: seq<Byte>)
    | WriteEnd(data: seq<Byte>)
    | Fill(count: nat)
    | SendNew(end: bool)
    | Retransmit(num: nat)
    | Heartbeat
    | SendAck(sacks: seq<Range>)
    | Deliver(msg: Msg)
    | CloseEnded
    | Abort

  /** Number, acknowledgement and SACK ranges of a packet are less than half a turn from where the
      endpoint stands. */
  ghost predicate InWindow(e: Endpoint, m: Msg) {
    && Within(m.num, e.rcv.ack)
    && Within(m.ack, e.snd.remoteAcked) && Within(|e.snd.sent|, m.ack)
    && Within(|e.snd.sent|, e.snd.remoteAcked)
    && forall i :: 0 <= i < |m.sacks| ==>
         var r := m.sacks[i];
         && Within(r.start, e.snd.remoteAcked) && Within(r.start, m.ack) && Within(r.end, |e.snd.sent|)
         && Within(r.start, |e.snd.sent|) && Within(r.start, r.end)
  }

  /** When an action can happen. */
  ghost predicate Enabled(e: Endpoint, a: Action, inbox: set<Msg>) {
    match a
    case Write(data) => e.phase.Open? && !e.snd.ending && data != []
    case WriteEnd(data) => e.phase.Open? && !e.snd.ending
    case Fill(count) => e.phase.Open? && count <= |e.snd.unsent|
    case SendNew(end) =>
      && e.phase.Open?
      && (end ==> e.snd.unsent == [] && e.snd.endQueued)
      && (e.snd.building != [] || end)
    case Retransmit(num) => e.phase.Open? && num in e.snd.held && num < |e.snd.sent|
    case Heartbeat => e.phase.Open?
    case SendAck(sacks) => e.phase.Open? && SackList(e.rcv.held, sacks)
    case Deliver(msg) => msg in inbox && InWindow(e, msg)
    case CloseEnded => e.phase.Open? && e.snd.ended && e.rcv.endedRemote
    case Abort => true
  }

  function Header(e: Endpoint): Msg {
    Msg(false, |e.snd.sent|, e.rcv.ack, None, [])
  }

  /** `ack_packet`: a packet that is still held leaves, and the last one of an ended stream ends it. */
  function AckPacket(s: Sender, n: nat): Sender {
    if n !in s.held then s
    else
      var held := s.held - {n};
      s.(held := held,
         ended := s.ended || (s.ending && held == {} && s.unsent == [] && !s.endQueued))
  }

  /** The cumulative loop of `process_packet`, which stops when a packet ends the stream. */
  function AckUpTo(s: Sender, p: nat, ack: nat): Sender
    requires Within(p, ack)
    decreases ack - p
  {
    SeqCompareTrue(s.isn + p, s.isn + ack);
    if SeqCompare(U32(s.isn + p), U32(s.isn + ack)) < 0 then
      var s1 := AckPacket(s, p);
      if s1.ended && !s.ended then s1 else AckUpTo(s1, p + 1, ack)
    else s
  }

  /** `udx_sack_is_valid`. */
  predicate SackIsValid(s: Sender, r: Range) {
    var w := (n: nat) => U32(s.isn + n);
    && !(SeqDiff(w(r.end), w(|s.sent|)) > 0)
    && !(SeqDiff(w(r.start), w(r.end)) >= 0)
    && !(SeqDiff(w(r.start), w(|s.sent|)) >= 0)
    && !(SeqDiff(w(r.start), w(s.remoteAcked)) < 0)
  }

  function AckRange(s: Sender, p: nat, end: nat): Sender
    decreases end - p
  {
    if p < end then
      var s1 := AckPacket(s, p);
      if s1.ended && !s.ended then s1 else AckRange(s1, p + 1, end)
    else s
  }

  function AckSacks(s: Sender, sacks: seq<Range>): Sender
    decreases |sacks|
  {
    if sacks == [] then s
    else
      var s1 := if SackIsValid(s, sacks[0]) then AckRange(s, sacks[0].start, sacks[0].end) else s;
      AckSacks(s1, sacks[1..])
  }

  /** The acknowledging half of `process_packet`. */
  function Acknowledge(s: Sender, ack: nat, sacks: seq<Range>): Sender
    requires Within(s.remoteAcked, ack)
  {
    if SeqCompare(U32(s.isn + |s.sent|), U32(s.isn + ack)) < 0 then s
    else
      var s1 := AckUpTo(s, s.remoteAcked, ack);
      var s2 := if SeqDiff(U32(s.isn + ack), U32(s.isn + s.remoteAcked)) > 0 then s1.(remoteAcked := ack) else s1;
      if s1.ended && !s.ended then s2 else AckSacks(s2, sacks)
  }

  /** What an action does to the endpoint, and the packets it puts on the network. */
  ghost function Act(e: Endpoint, a: Action, inbox: set<Msg>): (Endpoint, set<Msg>)
    requires Enabled(e, a, inbox)
  {
    var s, r := e.snd, e.rcv;
    match a
    case Write(data) =>
      (e.(snd := s.(written := s.written + data, unsent := s.unsent + data)), {})
    case WriteEnd(data) =>
      (e.(snd := s.(written := s.written + data, unsent := s.unsent + data, endQueued := true, ending := true,
                    wantsTimewait := s.wantsTimewait || !r.endedRemote)), {})
    case Fill(count) =>
      (e.(snd := s.(unsent := s.unsent[count..], building := s.building + s.unsent[..count])), {})
    case SendNew(end) =>
      var seg := Seg(s.building, end);
      (e.(snd := s.(building := [], endQueued := s.endQueued && !end,
                    sent := s.sent + [seg], held := s.held + {|s.sent|})),
       {Header(e).(seg := Some(seg))})
    case Retransmit(num) =>
      (e, {Header(e).(num := num, seg := Some(s.sent[num]))})
    case Heartbeat =>
      (e, {Header(e).(heartbeat := true)})
    case SendAck(sacks) =>
      (e.(rcv := AfterAck(r)), {Header(e).(sacks := sacks)})
    case Deliver(m) =>
      if e.phase.TimeWait? && m.seg.Some? then (e, {Header(e)})
      else if !e.phase.Open? || m.heartbeat then (e, {})
      else (e.(rcv := Incoming(r, m.num, m.seg), snd := Acknowledge(s, m.ack, m.sacks)), {})
    case CloseEnded =>
      (e.(phase := if s.wantsTimewait then TimeWait else Gone), {})
    case Abort =>
      (e.(phase := Gone), {})
  }

  // ---------- runs ----------

  function Fresh(isn: nat, irs: nat): Endpoint {
    Endpoint(Sender(isn, [], [], [], false, false, false, false, [], 0, {}),
             Receiver(irs, 0, map[], [], false, false, 0), Open)
  }

  ghost predicate Init(s: System) {
    && s.a == Fresh(s.a.snd.isn, s.b.snd.isn)
    && s.b == Fresh(s.b.snd.isn, s.a.snd.isn)
    && s.ab == {} && s.ba == {}
  }

  function Swap(s: System): System {
    System(s.b, s.a, s.ba, s.ab)
  }

  /** Endpoint `a` acts. Packets stay on the network for good: they may arrive late, repeatedly or never. */
  ghost predicate StepA(s: System, act: Action, t: System) {
    && Enabled(s.a, act, s.ba)
    && var (e, out) := Act(s.a, act, s.ba);
       t == s.(a := e, ab := s.ab + out)
  }

  ghost predicate Next(s: System, t: System) {
    exists act :: StepA(s, act, t) || StepA(Swap(s), act, Swap(t))
  }

  ghost predicate IsRun(run: seq<System>) {
    && run != [] && Init(run[0])
    && forall i :: 0 <= i < |run| - 1 ==> Next(run[i], run[i + 1])
  }

  // ---------- the invariant ----------

  function Bytes(segs: seq<Seg>): seq<Byte> {
    if segs == [] then [] else Bytes(segs[..|segs| - 1]) + segs[|segs| - 1].data
  }

  ghost predicate EndSent(s: Sender) {
    s.sent != [] && s.sent[|s.sent| - 1].end
  }

  /** Nothing written is lost or reordered on its way into packets, and END is the last of them. */
  ghost predicate SenderOk(s: Sender) {
    && s.written == Bytes(s.sent) + s.building + s.unsent
    && (forall i :: 0 <= i < |s.sent| ==> s.sent[i].data != [] || s.sent[i].end)
    && (forall i :: 0 <= i < |s.sent| - 1 ==> !s.sent[i].end)
    && (s.endQueued ==> s.ending && !EndSent(s))
    && (s.ending && !s.endQueued ==> EndSent(s))
    && (EndSent(s) ==> s.ending && s.building == [] && s.unsent == [])
    && s.remoteAcked <= |s.sent| && (forall n :: n in s.held ==> s.remoteAcked <= n < |s.sent|)
    && (s.ended <==> s.held == {} && EndSent(s))
  }

  /** The receiver's packets are the sender's packets. */
  ghost predicate ReceiverOk(s: Sender, r: Receiver) {
    && r.irs == s.isn
    && r.ack <= |s.sent|
    && (forall n :: n in r.held ==> r.ack < n < |s.sent| && r.held[n] == s.sent[n])
    && r.read == Bytes(s.sent[..r.ack])
    && (r.endingRemote ==> r.remoteEnded < |s.sent| && s.sent[r.remoteEnded].end)
    && (r.endingRemote ==> Got(r, r.remoteEnded) && Within(r.remoteEnded, r.ack))
    && (EndSent(s) && Got(r, |s.sent| - 1) ==> r.endingRemote)
    && (r.endedRemote ==> r.endingRemote && r.remoteEnded < r.ack)
  }

  ghost predicate DataNet(s: Sender, net: set<Msg>) {
    forall m :: m in net ==>
      && m.num <= |s.sent|
      && (m.seg.Some? ==> m.num < |s.sent| && m.seg.value == s.sent[m.num])
  }

  ghost predicate Sacked(n: nat, net: set<Msg>) {
    exists m :: m in net && InRanges(n, m.sacks)
  }

  /** Acknowledgements on their way tell the truth, and no packet both names `n` as the next one it
      waits for and is contradicted by another one that has `n` in a SACK block. */
  ghost predicate AckNet(r: Receiver, net: set<Msg>) {
    && (forall m :: m in net ==> m.ack <= r.ack)
    && (forall m, n {:trigger InRanges(n, m.sacks)} :: m in net && InRanges(n, m.sacks) ==> m.ack < n && Got(r, n))
    && (forall m, m' {:trigger InRanges(m.ack, m'.sacks)} {:trigger m in net, m' in net} ::
          m in net && m' in net ==> !InRanges(m.ack, m'.sacks))
  }

  ghost predicate Attested(s: Sender, r: Receiver, net: set<Msg>) {
    && s.remoteAcked <= r.ack
    && (s.remoteAcked == 0 || exists m :: m in net && m.ack == s.remoteAcked)
    && (forall n :: s.remoteAcked <= n < |s.sent| && n !in s.held ==> Sacked(n, net))
  }

  /** Everything about the stream of packets from one endpoint to the other. */
  ghost predicate Direction(s: Sender, r: Receiver, data: set<Msg>, acks: set<Msg>) {
    && SenderOk(s) && ReceiverOk(s, r)
    && DataNet(s, data) && AckNet(r, acks) && Attested(s, r, acks)
  }

  /** An END packet of an endpoint that does not want TIME-WAIT acknowledges the peer's END. */
  ghost predicate Closing(e: Endpoint, p: Endpoint, out: set<Msg>) {
    && (e.rcv.endedRemote ==> EndSent(p.snd) && e.rcv.ack == |p.snd.sent|)
    && (e.snd.ending && !e.snd.wantsTimewait ==> e.rcv.endedRemote)
    && (e.snd.ending && p.snd.ending ==> e.snd.wantsTimewait || p.snd.wantsTimewait)
    && (forall m :: m in out && m.seg.Some? && m.seg.value.end && !e.snd.wantsTimewait ==>
          EndSent(p.snd) && m.ack == |p.snd.sent|)
  }

  ghost predicate Inv(s: System) {
    && Direction(s.a.snd, s.b.rcv, s.ab, s.ba)
    && Direction(s.b.snd, s.a.rcv, s.ba, s.ab)
    && Closing(s.a, s.b, s.ab) && Closing(s.b, s.a, s.ba)
  }
}
