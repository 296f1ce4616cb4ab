/** What the receiving half of a stream must compute, whatever it stores its out-of-order packets in:
    the meaning of `process_data_packet`, of the drain in `process_packet` and of `send_ack` in src/udx.c. */
module Receive {
  import opened SeqArith
  import opened Wrappers

  type Byte = x: int | 0 <= x < 256

  /** A DATA or END packet's content. The packet has the DATA flag exactly if it carries bytes. */
  datatype Seg = Seg(data: seq<Byte>, end: bool)

  /** A SACK block on the wire: the packets `start` up to, not including, `end`. */
  datatype Range = Range(start: nat, end: nat)

  const MAX_SACKS := 50

  /** Sequence numbers are true numbers counted from the first one; the wire carries `U32(irs + n)`. */
  datatype Receiver = Receiver(
    irs: nat,
    ack: nat,                // stream->ack: every packet below it has been consumed
    held: map<nat, Seg>,     // the packets waiting in sack blocks
    read: seq<Byte>,         // everything on_read has been given
    endingRemote: bool,
    endedRemote: bool,       // EOF has been reported
    remoteEnded: nat)

  function Consume(r: Receiver, s: Seg): Receiver {
    r.(ack := r.ack + 1, held := r.held - {r.ack}, read := r.read + s.data)
  }

  /** `process_data_packet`. */
  function Accept(r: Receiver, n: nat, s: Seg): Receiver {
    if U32(r.irs + n) == U32(r.irs + r.ack) && s.data != [] then
      r.(ack := r.ack + 1, read := r.read + s.data)
    else if n in r.held then r
    else r.(held := r.held[n := s])
  }

  /** Hand over waiting packets while the next one in line is there. */
  function Drain(r: Receiver): Receiver
    decreases |r.held|
  {
    if r.endedRemote || r.ack !in r.held then r
    else
      assert |r.held.Keys - {r.ack}| < |r.held|;
      assert (r.held - {r.ack}).Keys == r.held.Keys - {r.ack};
      Drain(Consume(r, r.held[r.ack]))
  }

  /** A DATA or END packet that is not behind: its content, unless EOF has been reported, and its END flag. */
  function Stored(r: Receiver, n: nat, s: Seg): Receiver {
    var t := if r.endedRemote then r else Accept(r, n, s);
    if s.end then t.(endingRemote := true, remoteEnded := n) else t
  }

  /** The receiving half of `process_packet` for a packet numbered `n`. */
  function Incoming(r: Receiver, n: nat, s: Option<Seg>): Receiver {
    Drain(if SeqCompare(U32(r.irs + r.ack), U32(r.irs + n)) <= 0 && s.Some? then Stored(r, n, s.value) else r)
  }

  /** The end-of-stream test that `send_ack` makes after an acknowledgement has been sent. */
  function AfterAck(r: Receiver): Receiver {
    if r.endingRemote && !r.endedRemote && SeqCompare(U32(r.irs + r.remoteEnded), U32(r.irs + r.ack)) <= 0
    then r.(endedRemote := true) else r
  }

  /** The packet has arrived. */
  ghost predicate Got(r: Receiver, n: nat) {
    n < r.ack || n in r.held
  }

  ghost predicate InRanges(n: nat, sacks: seq<Range>) {
    exists i :: 0 <= i < |sacks| && sacks[i].start <= n < sacks[i].end
  }

  /** The SACK list `send_ack` writes: maximal runs of waiting packets, lowest first, as many as fit. */
  ghost predicate SackList(held: map<nat, Seg>, sacks: seq<Range>) {
    && |sacks| <= MAX_SACKS
    && (forall i :: 0 <= i < |sacks| ==>
          sacks[i].start < sacks[i].end && sacks[i].end !in held
          && forall n :: sacks[i].start <= n < sacks[i].end ==> n in held)
    && (forall i, j :: 0 <= i < j < |sacks| ==> sacks[i].end < sacks[j].start)
    && (forall n :: n in held && !InRanges(n, sacks) ==>
          |sacks| == MAX_SACKS && sacks[MAX_SACKS - 1].end < n)
  }
}
