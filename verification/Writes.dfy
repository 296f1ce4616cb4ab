/** The write queue of a stream in src/udx.c: writing, slicing buffers into packets, acknowledging and cancelling
    packets, and the calls to each write's on_ack. */
module Writes {
  import opened Receive
  import opened WriteSums
  import opened Books
  import opened Wrappers
  import P = Protocol
  import S = ProtocolSafety

  datatype Outcome = Queued | Epipe | Einval

  class Writer {
    var bufs: seq<Buf>               // every udx_stream_write_buf_t so far
    var head: nat                    // stream->write_queue: the buffers from here on
    var writes: seq<Req>             // every udx_stream_write_t so far
    var building: seq<Slice>         // stream->pkt
    var capacity: nat                // stream->pkt_capacity
    var endFlag: bool                // stream->pkt_header_flag has END
    var packets: seq<seq<Slice>>     // the slices of every packet sent, by number
    var ends: seq<bool>              // which of them have END
    var held: set<nat>               // stream->outgoing
    var ending: bool
    var bytesQueued: nat
    var bytesPacketized: nat
    var bytesAcked: nat
    var writesQueued: nat
    ghost var past: seq<Slice>       // everything settled so far, in order

    ghost function Now(rest: seq<Slice>): Book
      reads `bufs, `head, `writes, `building, `packets, `held, `past
    {
      Book(bufs, head, writes, building, packets, held, rest, past)
    }

    /** bytes_queued >= bytes_packetized >= bytes_acked, as what they count; see CountersOrdered. */
    ghost predicate Counted()
      reads this
    {
      && bytesQueued == Total(bufs, None, Size)
      && bytesPacketized == Total(bufs, None, Sliced)
      && bytesAcked == Total(bufs, None, Settled)
      && bytesAcked + writesQueued == bytesQueued
    }

    ghost predicate Valid()
      reads this
    {
      && Live(Now([])) && Counted()
      && |ends| == |packets|
      && (endFlag ==> ending && head == |bufs|)
      && (capacity == 0 ==> Payload(building, bufs) != [])
    }

    /** `bytes_queued >= bytes_packetized >= bytes_acked`, and they are equal only if there is nothing unsent,
        or nothing unacknowledged. */
    lemma CountersOrdered()
      requires Valid()
      ensures bytesQueued >= bytesPacketized >= bytesAcked
      ensures bytesQueued == bytesPacketized <==> forall b :: 0 <= b < |bufs| ==> Cut(bufs[b]) == |bufs[b].data|
      ensures bytesPacketized == bytesAcked <==> forall b :: 0 <= b < |bufs| ==> bufs[b].inflight == 0
      ensures writesQueued == 0 <==> bytesQueued == bytesAcked
    {
      FlowOrder(Now([]));
      TotalBelow(bufs, None, Sliced, Size);
      TotalBelow(bufs, None, Settled, Sliced);
    }

    /** As long as nothing is cancelled, on_ack of a write is called exactly once, when its last byte is
        acknowledged, in whatever order that happens, unless the write's last buffer is empty. */
    lemma OnAckOnce(w: nat)
      requires Valid() && w < |writes|
      ensures writes[w].acked <= writes[w].size
      ensures writes[w].size > 0 ==> (writes[w].log == [] <==> writes[w].acked < writes[w].size)
      ensures writes[w].size > 0 && Sound(bufs, w) ==> |writes[w].log| == if writes[w].acked == writes[w].size then 1 else 0
    {
      var k := Now([]);
      assert LogOk(k, w) && WriteOk(k, w);
      SettledAtMost(k, w);
    }

    /** What module Protocol keeps of this. */
    ghost predicate Shows(s: P.Sender)
      reads this
    {
      Shown(Now([]), ends, ending, endFlag, s)
    }

    constructor (max: nat)
      requires max > 0
      ensures Valid() && capacity == max && bufs == [] && writes == [] && head == 0 && building == [] && packets == []
      ensures held == {} && !ending && !endFlag && past == []
      ensures Shows(P.Fresh(0, 0).snd)
    {
      bufs, head, writes, building, capacity, endFlag := [], 0, [], [], max, false;
      packets, ends, held, ending := [], [], {}, false;
      bytesQueued, bytesPacketized, bytesAcked, writesQueued := 0, 0, 0, 0;
      past := [];
    }

    // ---------- writing ----------

    method Begin()
      modifies `writes
      ensures Now([]) == Start(old(Now([]))) && writes == old(writes) + [Req(0, 0, [])]
    {
      writes := writes + [Req(0, 0, [])];
    }

    /** One turn of the loop of `_udx_stream_write`. */
    method Append(d: seq<Byte>, w: nat)
      requires |writes| == w + 1
      modifies `bufs, `writes, `bytesQueued, `writesQueued
      ensures Now([]) == Enqueue(old(Now([])), d)
      ensures bufs == old(bufs) + [Buf(d, w, 0, 0)]
      ensures |writes| == w + 1 && writes == old(writes)[w := old(writes)[w].(size := old(writes)[w].size + |d|)]
      ensures bytesQueued == old(bytesQueued) + |d| && writesQueued == old(writesQueued) + |d|
    {
      bufs := bufs + [Buf(d, w, 0, 0)];
      writes := writes[w := writes[w].(size := writes[w].size + |d|)];
      bytesQueued := bytesQueued + |d|;
      writesQueued := writesQueued + |d|;
    }

    /** The loop of `_udx_stream_write`. */
    method AppendAll(data: seq<seq<Byte>>, w: nat)
      requires Live(Now([])) && Untouched(Now([])) && |writes| == w + 1 && writes[w] == Req(0, 0, [])
      requires bytesPacketized == Total(bufs, None, Sliced)
      requires bytesAcked == Total(bufs, None, Settled) && bytesQueued == Total(bufs, None, Size)
      requires bytesAcked + writesQueued == bytesQueued
      modifies `bufs, `writes, `bytesQueued, `writesQueued
      ensures Live(Now([])) && bytesAcked + writesQueued == bytesQueued
      ensures bytesPacketized == Total(bufs, None, Sliced)
      ensures bytesAcked == Total(bufs, None, Settled) && bytesQueued == Total(bufs, None, Size)
      ensures bufs == old(bufs) + Fresh(data, w)
      ensures writes == old(writes)[w := Req(|Join(data)|, 0, [])]
      ensures Concat(bufs) == old(Concat(bufs)) + Join(data) && Tail(bufs) == old(Tail(bufs)) + Join(data)
    {
      hide *;
      AppendBegins(bufs, w);
      assert data[..0] == [];
      assert writes == writes[w := Req(0, 0, [])];
      var i := 0;
      while i < |data|
        invariant 0 <= i <= |data| && |writes| == w + 1
        invariant Live(Now([])) && Untouched(Now([])) && bytesAcked + writesQueued == bytesQueued
        invariant bytesPacketized == Total(bufs, None, Sliced)
        invariant bytesAcked == Total(bufs, None, Settled) && bytesQueued == Total(bufs, None, Size)
        invariant bufs == old(bufs) + Fresh(data[..i], w)
        invariant writes == old(writes)[w := Req(|Join(data[..i])|, 0, [])]
        invariant Concat(bufs) == old(Concat(bufs)) + Join(data[..i]) && Tail(bufs) == old(Tail(bufs)) + Join(data[..i])
      {
        hide *;
        NowIs();
        EnqueueLives(Now([]), data[i]);
        AppendMore(old(bufs), bufs, data, i, w);
        Append(data[i], w);
        i := i + 1;
      }
      assert data[..i] == data;
    }

    /** `_udx_stream_write` up to its call of `send_packets`. */
    method Enter(given: seq<seq<Byte>>, end: bool, ghost s: P.Sender)
      requires Valid() && Shows(s) && given != [] && !ending
      modifies `bufs, `writes, `bytesQueued, `writesQueued, `ending
      ensures Valid() && ending == end && Shows(Wrote(s, Join(given), end))
      ensures writes == old(writes) + [Req(|Join(given)|, 0, [])]
      ensures bufs == old(bufs) + Fresh(given, |old(writes)|)
    {
      hide *;
      Parts();
      NowIs();
      ShowsIs(s);
      ghost var k := Now([]);
      ghost var w := |writes|;
      StartLives(k);
      Begin();
      assert Now([]) == Start(k);
      AppendAll(given, |writes| - 1);
      ending := end;
      NowIs();
      WriteShown(k, Now([]), ends, endFlag, s, given, end, w);
      assert writes == old(writes) + [Req(|Join(given)|, 0, [])];
      Whole();
      ShowsIs(Wrote(s, Join(given), end));
    }

    /** `udx_stream_write` and `udx_stream_write_end` on a connected stream, up to the call of `send_packets`. */
    method Write(data: seq<seq<Byte>>, end: bool, ghost s: P.Sender) returns (r: Outcome)
      requires Valid() && Shows(s)
      modifies `bufs, `writes, `bytesQueued, `writesQueued, `ending
      ensures Valid()
      ensures r == if old(ending) then Epipe else if data == [] && !end then Einval else Queued
      ensures !r.Queued? ==> bufs == old(bufs) && writes == old(writes) && ending == old(ending) && Shows(s)
      ensures r.Queued? ==> ending == end && Shows(Wrote(s, Join(data), end))
      ensures r.Queued? ==> writes == old(writes) + [Req(|Join(data)|, 0, [])]
      ensures r.Queued? ==> bufs == old(bufs) + Fresh(if data == [] then [[]] else data, |old(writes)|)
    {
      hide *;
      if ending {
        r := Epipe;
      } else if data == [] && !end {
        r := Einval;
      } else {
        r := Queued;
        var given := if data == [] then [[]] else data;
        JoinEmpty(data, given);
        Enter(given, end, s);
      }
    }

    // ---------- settling a slice ----------

    /** `on_bytes_acked` for the next slice, and the call to on_ack if the write is done. */
    method OnBytesAcked(s: Slice, cancelled: bool, ghost rest: seq<Slice>)
      requires rest != [] && s == rest[0]
      requires if cancelled then Dying(Now(rest)) else Live(Now(rest))
      requires writesQueued + Total(bufs, None, Settled) == Total(bufs, None, Size)
      modifies `bufs, `writes, `writesQueued, `past
      ensures Now(rest[1..]) == Settle(old(Now(rest)), if cancelled then Canceled else Acked)
      ensures bufs == Settle(old(Now(rest)), if cancelled then Canceled else Acked).bufs
      ensures writesQueued + Total(bufs, None, Settled) == Total(bufs, None, Size)
      ensures Total(bufs, None, Size) == old(Total(bufs, None, Size))
      ensures Total(bufs, None, Settled) == old(Total(bufs, None, Settled)) + s.len
      ensures !cancelled ==> Total(bufs, None, Sliced) == old(Total(bufs, None, Sliced))
      ensures past == old(past) + [s]
    {
      hide Core, Flow, Total;
      CanSettle(Now(rest), if cancelled then Canceled else Acked);
      if !cancelled {
        InflightCovers(Now(rest));
      }
      var b := bufs[s.buf];
      if !cancelled {
        b := b.(inflight := b.inflight - s.len);
      }
      b := b.(acked := b.acked + s.len);
      var w := writes[b.write];
      w := w.(acked := w.acked + s.len);
      if w.acked == w.size {
        w := w.(log := w.log + [if cancelled then Canceled else Acked]);
      }
      bufs := bufs[s.buf := b];
      writes := writes[b.write := w];
      writesQueued := writesQueued - s.len;
      past := past + [s];
    }

    // ---------- acknowledging ----------

    method Release(n: nat) returns (p: seq<Slice>)
      requires Live(Now([])) && n in held
      modifies `held
      ensures n < |packets| && p == packets[n] && held == old(held) - {n}
      ensures Now(p) == Take(old(Now([])), n)
    {
      PacketBegins(Now([]), n, Acked);
      p := packets[n];
      held := held - {n};
    }

    /** The loop of `ack_packet` over a packet's slices. */
    method SettlePacket(p: seq<Slice>, ghost first: Book)
      requires Live(Now(p)) && Along(first, Now(p), Acked)
      requires writesQueued + Total(bufs, None, Settled) == Total(bufs, None, Size)
      requires bytesAcked == Total(bufs, None, Settled)
      modifies `bufs, `writes, `writesQueued, `past, `bytesAcked
      ensures Live(Now([])) && Along(first, Now([]), Acked)
      ensures writesQueued + Total(bufs, None, Settled) == Total(bufs, None, Size)
      ensures bytesAcked == Total(bufs, None, Settled)
      ensures Total(bufs, None, Size) == old(Total(bufs, None, Size)) && Total(bufs, None, Sliced) == old(Total(bufs, None, Sliced))
      ensures Concat(bufs) == old(Concat(bufs)) && Tail(bufs) == old(Tail(bufs)) && past == old(past) + p
    {
      hide *;
      var i := 0;
      assert p[0..] == p;
      while i < |p|
        invariant 0 <= i <= |p|
        invariant Live(Now(p[i..])) && Along(first, Now(p[i..]), Acked)
        invariant writesQueued + Total(bufs, None, Settled) == Total(bufs, None, Size)
        invariant bytesAcked == Total(bufs, None, Settled)
        invariant Total(bufs, None, Size) == old(Total(bufs, None, Size)) && Total(bufs, None, Sliced) == old(Total(bufs, None, Sliced))
        invariant Concat(bufs) == old(Concat(bufs)) && Tail(bufs) == old(Tail(bufs)) && past == old(past) + p[..i]
      {
        hide *;
        assert p[..i + 1] == p[..i] + [p[i]];
        RestIs(p[i..]);
        AckStep(first, Now(p[i..]));
        assert p[i] == p[i..][0] && p[i..][1..] == p[i + 1..];
        bytesAcked := bytesAcked + p[i].len;
        OnBytesAcked(p[i], false, p[i..]);
        i := i + 1;
      }
      assert p[i..] == [] && p[..i] == p;
    }

    /** `ack_packet`, as far as the write queue goes. */
    method AckPacket(n: nat, ghost s: P.Sender)
      requires Valid() && Shows(s)
      modifies `bufs, `writes, `writesQueued, `past, `held, `bytesAcked
      ensures Valid() && Shows(P.AckPacket(s, n))
      ensures held == old(held) - {n}
      ensures Along(old(Now([])), Now([]), Acked)
      ensures n in old(held) ==> n < |packets| && past == old(past) + packets[n]
    {
      hide Core, Flow, Closed, Total, Tail, Concat, Payload, Live, Shown, Along;
      ghost var k := Now([]);
      AlongSelf(k, Acked);
      if n in held {
        LiveParts(k);
        PacketBegins(k, n, Acked);
        var p := Release(n);
        SettlePacket(p, k);
        AckShown(k, Now([]), n, ends, ending, endFlag, s);
      } else {
        assert held == held - {n};
        AckNothing(k, n, ends, ending, endFlag, s);
      }
    }

    // ---------- cancelling ----------

    /** `cancel_packet`. */
    method CancelPacket(p: seq<Slice>, ghost first: Book)
      requires Dying(Now(p)) && Along(first, Now(p), Canceled)
      requires writesQueued + Total(bufs, None, Settled) == Total(bufs, None, Size)
      modifies `bufs, `writes, `writesQueued, `past
      ensures Dying(Now([])) && Along(first, Now([]), Canceled)
      ensures writesQueued + Total(bufs, None, Settled) == Total(bufs, None, Size)
    {
      hide *;
      var i := 0;
      assert p[0..] == p;
      while i < |p|
        invariant 0 <= i <= |p|
        invariant Dying(Now(p[i..])) && Along(first, Now(p[i..]), Canceled)
        invariant writesQueued + Total(bufs, None, Settled) == Total(bufs, None, Size)
      {
        hide *;
        RestIs(p[i..]);
        CancelStep(first, Now(p[i..]));
        assert p[i] == p[i..][0] && p[i..][1..] == p[i + 1..];
        OnBytesAcked(p[i], true, p[i..]);
        i := i + 1;
      }
      assert p[i..] == [];
    }

    method CancelBuilding(ghost first: Book)
      requires Live(Now([])) && Along(first, Now([]), Canceled)
      requires writesQueued + Total(bufs, None, Settled) == Total(bufs, None, Size)
      modifies `building, `bufs, `writes, `writesQueued, `past
      ensures building == [] && Dying(Now([])) && Along(first, Now([]), Canceled)
      ensures writesQueued + Total(bufs, None, Settled) == Total(bufs, None, Size)
    {
      hide Core, Flow, Closed, Total, Live, Along, Dying;
      LiveParts(Now([]));
      BuildingDies(Now([]), Canceled);
      AlongOn(first, Now([]), TakeBuilding(Now([])), Canceled);
      var p := building;
      building := [];
      CancelPacket(p, first);
    }

    method CancelHeld(n: nat, ghost first: Book)
      requires Dying(Now([])) && Along(first, Now([]), Canceled)
      requires writesQueued + Total(bufs, None, Settled) == Total(bufs, None, Size)
      modifies `held, `bufs, `writes, `writesQueued, `past
      ensures held == old(held) - {n} && Dying(Now([])) && Along(first, Now([]), Canceled)
      ensures writesQueued + Total(bufs, None, Settled) == Total(bufs, None, Size)
    {
      hide Core, Flow, Closed, Total, Live, Along, Open;
      if n in held {
        PacketBegins(Now([]), n, Canceled);
        AlongOn(first, Now([]), Take(Now([]), n), Canceled);
        var p := packets[n];
        held := held - {n};
        CancelPacket(p, first);
      }
    }

    method CancelHead(ghost first: Book)
      requires Dying(Now([])) && Along(first, Now([]), Canceled) && head < |bufs| && held == {} && building == []
      requires writesQueued + Total(bufs, None, Settled) == Total(bufs, None, Size)
      modifies `head, `bufs, `writes, `writesQueued, `past
      ensures head == old(head) + 1 && |bufs| == old(|bufs|) && Dying(Now([])) && Along(first, Now([]), Canceled)
      ensures writesQueued + Total(bufs, None, Settled) == Total(bufs, None, Size)
    {
      hide Core, Flow, Closed, Total, Live, Along, Open;
      HeadDies(Now([]), Canceled);
      AlongOn(first, Now([]), TakeHead(Now([])), Canceled);
      AlongLength(first, Now([]), Canceled);
      var wbuf := bufs[head];
      var s := Slice(head, wbuf.acked, |wbuf.data| - wbuf.acked);
      head := head + 1;
      CancelPacket([s], first);
      AlongLength(first, Now([]), Canceled);
    }

    /** `clear_outgoing_packets`: whatever has been acknowledged in whatever order, every write ends up settled,
        and every on_ack that had not been called is called now, with ECANCELED, once. */
    method ClearOutgoing(remoteAcked: nat)
      requires Valid() && forall n :: n in held ==> remoteAcked <= n
      modifies this
      ensures held == {} && head == |bufs| && building == [] && writesQueued == 0
      ensures Along(old(Now([])), Now([]), Canceled)
      ensures forall b :: 0 <= b < |bufs| ==> AllPaid(Now([]), b)
    {
      hide Core, Flow, Closed, Total, Live, Along, Dying, AllPaid;
      ghost var first := Now([]);
      AlongSelf(first, Canceled);
      HeldNumbers(first);
      CancelBuilding(first);
      var n: nat := remoteAcked;
      while n < |packets|
        invariant forall m :: m in held ==> n <= m < |packets|
        invariant building == [] && Dying(Now([])) && Along(first, Now([]), Canceled)
        invariant writesQueued + Total(bufs, None, Settled) == Total(bufs, None, Size)
      {
        CancelHeld(n, first);
        n := n + 1;
      }
      assert held == {};
      DyingHead(Now([]));
      while head < |bufs|
        invariant head <= |bufs|
        invariant held == {} && building == [] && Dying(Now([])) && Along(first, Now([]), Canceled)
        invariant writesQueued + Total(bufs, None, Settled) == Total(bufs, None, Size)
      {
        CancelHead(first);
      }
      AllCleared(Now([]));
    }

    // ---------- slicing and sending ----------

    /** One turn of the filling loop of `send_new_packet`. */
    method FillOne()
      requires Core(Now([])) && Flow(Now([])) && Open(Now([]), building) && head < |bufs| && capacity > 0
      modifies `bufs, `head, `building, `capacity, `endFlag, `bytesPacketized
      ensures Now([]) == Filled(old(Now([])), old(capacity))
      ensures bufs == Filled(old(Now([])), old(capacity)).bufs && |bufs| == old(|bufs|)
      ensures building == Filled(old(Now([])), old(capacity)).building
      ensures |building| == |old(building)| + 1 && building[|building| - 1].buf == old(head)
      ensures capacity + NextSlice(old(Now([])), old(capacity)).len == old(capacity)
      ensures bytesPacketized == old(bytesPacketized) + NextSlice(old(Now([])), old(capacity)).len
      ensures (head == old(head) && capacity == 0) || head == old(head) + 1
      ensures endFlag == (old(endFlag) || (ending && head == |bufs|))
      ensures Closed(bufs, building) || capacity > 0
    {
      hide Core, Flow, Open, HasNext, Closed, CanCut, BytesOf, Out, Total;
      NextFits(Now([]), capacity);
      var wbuf := bufs[head];
      var writesz := |wbuf.data| - wbuf.acked - wbuf.inflight;
      var len := if capacity < writesz then capacity else writesz;
      var partial := Slice(head, wbuf.acked + wbuf.inflight, len);
      wbuf := wbuf.(inflight := wbuf.inflight + len);
      bufs := bufs[head := wbuf];
      capacity := capacity - len;
      bytesPacketized := bytesPacketized + len;
      building := building + [partial];
      if wbuf.acked + wbuf.inflight == |wbuf.data| {
        if ending && head == |bufs| - 1 {
          endFlag := true;
        }
        head := head + 1;
      }
      LastCloses(bufs, building);
    }

    /** The filling loop: the packet under construction takes as many of the unsent bytes as fit. */
    method Fill(ghost s: P.Sender) returns (ghost count: nat)
      requires Valid() && Shows(s)
      modifies `bufs, `head, `building, `capacity, `endFlag, `bytesPacketized
      ensures count == if old(capacity) < |s.unsent| then old(capacity) else |s.unsent|
      ensures capacity + count == old(capacity) && (capacity > 0 ==> head == |bufs|)
      ensures Shows(s.(unsent := s.unsent[count..], building := s.building + s.unsent[..count]))
      ensures Valid()
      ensures endFlag == (old(endFlag) || (ending && old(head) < head == |bufs|))
      ensures |bufs| == old(|bufs|) && SameData(old(bufs), bufs)
      ensures Lengthened(old(building), building, old(head), head)
    {
      hide *;
      Parts();
      NowIs();
      ShowsIs(s);
      ghost var k := Now([]);
      ghost var taken: seq<Byte> := [];
      FillBegins(k);
      NotLonger(building, head);
      while capacity > 0 && head < |bufs|
        invariant Core(Now([])) && Flow(Now([])) && Open(Now([]), building) && head <= |bufs|
        invariant Closed(bufs, building) || capacity > 0
        invariant Now([]).held == k.held && Now([]).packets == k.packets
        invariant |bufs| == old(|bufs|) && SameData(k.bufs, bufs) && Concat(bufs) == Concat(k.bufs)
        invariant Tail(k.bufs) == taken + Tail(bufs) && Payload(building, bufs) == Payload(k.building, k.bufs) + taken
        invariant capacity + |taken| == old(capacity) && Lengthened(old(building), building, old(head), head)
        invariant bytesPacketized == Total(bufs, None, Sliced)
        invariant bytesAcked == Total(bufs, None, Settled) && bytesQueued == Total(bufs, None, Size)
        invariant head >= old(head) && endFlag == (old(endFlag) || (ending && old(head) < head == |bufs|))
        decreases |bufs| - head, capacity
      {
        hide *;
        NowIs();
        ghost var piece := BytesOf(NextSlice(Now([]), capacity), bufs);
        FillStep(Now([]), capacity);
        FilledSame(Now([]), capacity);
        SameDataOn(k.bufs, bufs, Filled(Now([]), capacity).bufs);
        Associates(taken, piece, Tail(Filled(Now([]), capacity).bufs));
        Associates(Payload(k.building, k.bufs), taken, piece);
        ghost var building1, head1 := building, head;
        FillOne();
        Longer(old(building), building1, building, old(head), head1, head);
        NowIs();
        taken := taken + piece;
      }
      count := |taken|;
      NowIs();
      FillEnds(k, Now([]), taken, capacity, s, ends, ending, old(endFlag), endFlag);
      Whole();
      ShowsIs(s.(unsent := s.unsent[count..], building := s.building + s.unsent[..count]));
    }

    /** `_send_new_packet`, as far as the write queue goes. */
    method SendBuilding(max: nat, ghost s: P.Sender)
      requires Valid() && Shows(s) && max > 0
      modifies `packets, `ends, `held, `building, `capacity, `endFlag
      ensures Valid() && Shows(Sent(s, old(endFlag)))
      ensures packets == old(packets) + [old(building)] && ends == old(ends) + [old(endFlag)]
      ensures held == old(held) + {|old(packets)|} && building == [] && capacity == max && !endFlag
    {
      hide *;
      Parts();
      NowIs();
      ShowsIs(s);
      LaunchLives(Now([]));
      LaunchShown(Now([]), ends, ending, endFlag, s);
      MoveBuilding();
      NowIs();
      ends := ends + [endFlag];
      capacity := max;
      endFlag := false;
      Whole();
      ShowsIs(Sent(s, old(endFlag)));
    }

    method MoveBuilding()
      modifies `packets, `held, `building
      ensures Now([]) == Launch(old(Now([]))) && bufs == Launch(old(Now([]))).bufs
      ensures packets == old(packets) + [old(building)] && held == old(held) + {|old(packets)|} && building == []
    {
      packets := packets + [building];
      held := held + {|packets| - 1};
      building := [];
    }

    /** `send_new_packet`. With the window open, or for a probe (`tlp`), the packet under construction is filled
        and, if it is full, ends the stream or is a probe, sent. It has bytes or END in it, unless nothing but
        empty writes is waiting when a probe is due. */
    method SendNewPacket(tlp: bool, maySend: bool, max: nat, ghost s: P.Sender) returns (sent: bool, ghost count: nat, ghost end: bool)
      requires Valid() && Shows(s) && max > 0
      modifies `bufs, `head, `building, `capacity, `endFlag, `bytesPacketized, `packets, `ends, `held
      ensures Valid()
      ensures count <= |s.unsent| && Shows(if sent then Sent(Taken(s, count), end) else Taken(s, count))
      ensures old(head) == |bufs| || (!maySend && !tlp) ==> !sent && count == 0
      ensures old(head) < |bufs| && (maySend || tlp) ==>
                count == if old(capacity) < |s.unsent| then old(capacity) else |s.unsent|
      ensures sent ==> (end ==> Taken(s, count).unsent == [] && Taken(s, count).endQueued)
      ensures sent ==>
                (Taken(s, count).building == [] && !end <==> tlp && s.building == [] && s.unsent == [] && !ending)
    {
      hide *;
      Parts();
      ShowsIs(s);
      ShownIs(Now([]), ends, ending, endFlag, s);
      NowIs();
      sent, count, end := false, 0, false;
      TakenNone(s);
      if head == |bufs| || (!maySend && !tlp) {
        return;
      }
      HeadHere();
      count := Fill(s);
      TakenIs(s, count);
      Parts();
      NowIs();
      ShowsIs(Taken(s, count));
      ShownIs(Now([]), ends, ending, endFlag, Taken(s, count));
      NoneLeftIf(Now([]));
      if capacity == 0 || tlp || endFlag {
        sent, end := true, endFlag;
        SendBuilding(max, Taken(s, count));
      }
    }

    lemma HeadHere()
      requires Live(Now([]))
      ensures head <= |bufs|
    {
    }

    lemma NowIs()
      ensures Now([]).bufs == bufs && Now([]).building == building && Now([]).head == head
      ensures Now([]).packets == packets && Now([]).held == held && Now([]).rest == []
      ensures Now([]).writes == writes && Now([]).past == past
    {
    }

    lemma Parts()
      requires Valid()
      ensures Live(Now([])) && |ends| == |packets|
      ensures bytesPacketized == Total(bufs, None, Sliced)
      ensures bytesAcked == Total(bufs, None, Settled) && bytesQueued == Total(bufs, None, Size)
      ensures bytesAcked + writesQueued == bytesQueued
      ensures endFlag ==> ending && head == |bufs|
      ensures capacity == 0 ==> Payload(building, bufs) != []
    {
    }

    lemma Whole()
      requires Live(Now([])) && |ends| == |packets|
      requires bytesPacketized == Total(bufs, None, Sliced)
      requires bytesAcked == Total(bufs, None, Settled) && bytesQueued == Total(bufs, None, Size)
      requires bytesAcked + writesQueued == bytesQueued
      requires endFlag ==> ending && head == |bufs|
      requires capacity == 0 ==> Payload(building, bufs) != []
      ensures Valid()
    {
    }

    lemma ShowsIs(s: P.Sender)
      ensures Shows(s) <==> Shown(Now([]), ends, ending, endFlag, s)
    {
    }

    lemma RestIs(rest: seq<Slice>)
      ensures Now(rest).rest == rest && Now(rest).bufs == bufs
    {
    }
  }

  lemma CanSettle(k: Book, status: Status)
    requires Core(k) && k.rest != []
    ensures var s := k.rest[0];
            && s.buf < |k.bufs| && k.bufs[s.buf].write < |k.writes|
            && Total(k.bufs, None, Settled) + s.len <= Total(k.bufs, None, Size)
            && Total(Settle(k, status).bufs, None, Settled) == Total(k.bufs, None, Settled) + s.len
            && Total(Settle(k, status).bufs, None, Size) == Total(k.bufs, None, Size)
  {
    var s := k.rest[0];
    assert SliceOk(k, s) && BufOk(k, s.buf);
    var b := Paid(k.bufs[s.buf], s.len, status.Acked?);
    SettleBufs(k, status);
    TotalSet(k.bufs, s.buf, b, None, Settled);
    TotalSet(k.bufs, s.buf, b, None, Size);
    TotalAtMost(Settle(k, status));
  }

  lemma InflightCovers(k: Book)
    requires Core(k) && Flow(k) && k.rest != []
    ensures k.rest[0].buf < |k.bufs| && k.rest[0].len <= k.bufs[k.rest[0].buf].inflight
    ensures Total(Settle(k, Acked).bufs, None, Sliced) == Total(k.bufs, None, Sliced)
  {
    var s := k.rest[0];
    assert SliceOk(k, s) && BufOk(k, s.buf);
    AmountAt(k.rest, 0, false);
    TotalSet(k.bufs, s.buf, Paid(k.bufs[s.buf], s.len, true), None, Sliced);
  }

  lemma TotalAtMost(k: Book)
    requires forall b :: 0 <= b < |k.bufs| ==> BufOk(k, b)
    ensures Total(k.bufs, None, Settled) <= Total(k.bufs, None, Size)
  {
    forall b | 0 <= b < |k.bufs|
      ensures Measure(k.bufs[b], Settled) <= Measure(k.bufs[b], Size)
    {
      assert BufOk(k, b);
    }
    TotalBelow(k.bufs, None, Settled, Size);
  }

  // ---------- module Protocol ----------

  /** The bytes and flags that module Protocol keeps of the book. */
  ghost predicate Shown(k: Book, ends: seq<bool>, ending: bool, endFlag: bool, s: P.Sender) {
    && s.written == Concat(k.bufs) && s.unsent == Tail(k.bufs) && s.building == Payload(k.building, k.bufs)
    && |s.sent| == |k.packets| == |ends|
    && (forall n :: 0 <= n < |ends| ==> s.sent[n] == Seg(Payload(k.packets[n], k.bufs), ends[n]))
    && s.held == k.held && s.ending == ending
    && (s.endQueued <==> ending && (k.head < |k.bufs| || endFlag))
  }

  lemma PayloadsStay(k: Book, after: Book)
    requires Live(k) && SameData(k.bufs, after.bufs)
    ensures forall n :: 0 <= n < |k.packets| ==> Payload(k.packets[n], after.bufs) == Payload(k.packets[n], k.bufs)
    ensures Payload(k.building, after.bufs) == Payload(k.building, k.bufs)
  {
    forall n | 0 <= n < |k.packets|
      ensures Payload(k.packets[n], after.bufs) == Payload(k.packets[n], k.bufs)
    {
      assert PacketOk(k, n);
      assert forall i :: 0 <= i < |k.packets[n]| ==> SliceOk(k, k.packets[n][i]);
      PayloadFrame(k.packets[n], k.bufs, after.bufs);
    }
    assert forall i :: 0 <= i < |k.building| ==> SliceOk(k, k.building[i]);
    PayloadFrame(k.building, k.bufs, after.bufs);
  }

  lemma AckShown(k: Book, after: Book, n: nat, ends: seq<bool>, ending: bool, endFlag: bool, s: P.Sender)
    requires Live(k) && Along(k, after, Acked) && Shown(k, ends, ending, endFlag, s) && n in k.held
    requires after.packets == k.packets && after.building == k.building && after.head == k.head && after.held == k.held - {n}
    requires Concat(after.bufs) == Concat(k.bufs) && Tail(after.bufs) == Tail(k.bufs)
    ensures Shown(after, ends, ending, endFlag, P.AckPacket(s, n))
    ensures Payload(after.building, after.bufs) == Payload(k.building, k.bufs) && |after.bufs| == |k.bufs|
  {
    PayloadsStay(k, after);
  }

  lemma AckNothing(k: Book, n: nat, ends: seq<bool>, ending: bool, endFlag: bool, s: P.Sender)
    requires Shown(k, ends, ending, endFlag, s) && n !in k.held
    ensures Shown(k, ends, ending, endFlag, P.AckPacket(s, n))
  {
  }

  // ---------- cancelling ----------

  lemma AlongLength(k: Book, after: Book, status: Status)
    requires Along(k, after, status)
    ensures |after.bufs| == |k.bufs|
  {
  }

  lemma HeldNumbers(k: Book)
    requires Live(k)
    ensures forall n :: n in k.held ==> n < |k.packets|
    ensures Dying(k) || k.rest != []
  {
    forall n | n in k.held
      ensures n < |k.packets|
    {
      assert PacketOk(k, n);
    }
  }

  lemma DyingHead(k: Book)
    requires Dying(k)
    ensures k.head <= |k.bufs|
  {
  }

  /** The buffer and its write are settled, and the write's on_ack has been called exactly once, unless the
      write's last buffer is empty and not its only one. */
  ghost predicate AllPaid(k: Book, b: nat) {
    b < |k.bufs| ==>
      var w := k.bufs[b].write;
      && w < |k.writes| && k.bufs[b].acked == |k.bufs[b].data| && k.writes[w].acked == k.writes[w].size
      && (Sound(k.bufs, w) || Lone(k.bufs, b) ==> |k.writes[w].log| == 1)
  }

  lemma AllCleared(k: Book)
    requires Dying(k) && k.head == |k.bufs| && k.held == {} && k.building == [] && k.rest == []
    ensures forall b :: 0 <= b < |k.bufs| ==> AllPaid(k, b)
    ensures Total(k.bufs, None, Settled) == Total(k.bufs, None, Size)
  {
    forall b | 0 <= b < |k.bufs|
      ensures AllPaid(k, b) && Measure(k.bufs[b], Settled) == Measure(k.bufs[b], Size)
    {
      AllSettled(k, b);
    }
    TotalBelow(k.bufs, None, Settled, Size);
  }

  // ---------- filling ----------

  /** A slice for every buffer passed, and the last of them from the last buffer. */
  ghost predicate Lengthened(before: seq<Slice>, p: seq<Slice>, from: nat, head: nat) {
    && |p| >= |before| + head - from
    && (|p| > |before| ==> p[|p| - 1].buf == head || p[|p| - 1].buf + 1 == head)
  }

  lemma NotLonger(p: seq<Slice>, head: nat)
    ensures Lengthened(p, p, head, head)
  {
  }

  lemma Longer(before: seq<Slice>, p: seq<Slice>, q: seq<Slice>, from: nat, head: nat, next: nat)
    requires Lengthened(before, p, from, head) && |q| == |p| + 1 && q[|p|].buf == head && head <= next <= head + 1
    ensures Lengthened(before, q, from, next)
  {
  }

  lemma SameDataOn(a: seq<Buf>, b: seq<Buf>, c: seq<Buf>)
    requires SameData(a, b) && SameData(b, c)
    ensures SameData(a, c)
  {
  }

  lemma FilledSame(k: Book, capacity: nat)
    requires Core(k) && Flow(k) && k.head < |k.bufs| && capacity > 0
    ensures SameData(k.bufs, Filled(k, capacity).bufs)
    ensures Total(Filled(k, capacity).bufs, None, Sliced) == Total(k.bufs, None, Sliced) + NextSlice(k, capacity).len
    ensures Total(Filled(k, capacity).bufs, None, Settled) == Total(k.bufs, None, Settled)
    ensures Total(Filled(k, capacity).bufs, None, Size) == Total(k.bufs, None, Size)
  {
    var b := Advance(k.bufs[k.head], NextSlice(k, capacity).len);
    TotalSet(k.bufs, k.head, b, None, Sliced);
    TotalSet(k.bufs, k.head, b, None, Settled);
    TotalSet(k.bufs, k.head, b, None, Size);
  }

  lemma FillBegins(k: Book)
    requires Live(k)
    ensures Core(k) && Flow(k) && Open(k, k.building) && k.head <= |k.bufs| && SameData(k.bufs, k.bufs)
    ensures Tail(k.bufs) == [] + Tail(k.bufs) && Payload(k.building, k.bufs) == Payload(k.building, k.bufs) + []
  {
  }

  lemma NoneLeft(k: Book)
    requires Core(k) && Flow(k) && k.head == |k.bufs|
    ensures Tail(k.bufs) == []
  {
    FlowOrder(k);
    AllFront(k.bufs);
  }

  lemma FillEnds(k: Book, after: Book, taken: seq<Byte>, capacity: nat, s: P.Sender,
                 ends: seq<bool>, ending: bool, wasEnd: bool, endFlag: bool)
    requires Live(k) && Shown(k, ends, ending, wasEnd, s) && |after.bufs| == |k.bufs| && SameData(k.bufs, after.bufs)
    requires Core(after) && Flow(after) && Open(after, after.building) && after.rest == []
    requires Closed(after.bufs, after.building) || capacity > 0
    requires capacity == 0 || after.head == |after.bufs|
    requires after.packets == k.packets && after.held == k.held && Concat(after.bufs) == Concat(k.bufs)
    requires Tail(k.bufs) == taken + Tail(after.bufs)
    requires Payload(after.building, after.bufs) == Payload(k.building, k.bufs) + taken
    requires k.head <= after.head && endFlag == (wasEnd || (ending && k.head < after.head == |after.bufs|))
    requires wasEnd ==> ending && k.head == |k.bufs|
    requires capacity + |taken| == 0 ==> Payload(k.building, k.bufs) != []
    ensures Live(after)
    ensures |taken| <= |s.unsent| && (capacity > 0 ==> |taken| == |s.unsent|)
    ensures Shown(after, ends, ending, endFlag,
                  s.(unsent := s.unsent[|taken|..], building := s.building + s.unsent[..|taken|]))
    ensures endFlag ==> ending && after.head == |after.bufs|
    ensures capacity == 0 ==> Payload(after.building, after.bufs) != []
  {
    hide Core, Flow, Total;
    assert after.head <= |after.bufs| by {
      HeadInside(after);
      HeadInside(k);
    }
    if capacity > 0 {
      NoneLeft(after);
    }
    assert s.unsent[|taken|..] == Tail(after.bufs) && s.unsent[..|taken|] == taken;
    PayloadsStay(k, after);
  }

  lemma HeadInside(k: Book)
    requires Core(k)
    ensures k.head <= |k.bufs|
  {
  }

  lemma LastCloses(bufs: seq<Buf>, p: seq<Slice>)
    ensures p != [] && p[|p| - 1].len > 0 ==> Closed(bufs, p)
  {
  }

  // ---------- sending ----------

  lemma TakenNone(s: P.Sender)
    ensures Taken(s, 0) == s
  {
    assert s.unsent[0..] == s.unsent && s.unsent[..0] == [] && s.building + [] == s.building;
  }

  lemma TakenIs(s: P.Sender, count: nat)
    requires count <= |s.unsent|
    ensures Taken(s, count) == s.(unsent := s.unsent[count..], building := s.building + s.unsent[..count])
    ensures Taken(s, count).unsent == s.unsent[count..] && Taken(s, count).building == s.building + s.unsent[..count]
  {
  }

  lemma ShownIs(k: Book, ends: seq<bool>, ending: bool, endFlag: bool, s: P.Sender)
    requires Shown(k, ends, ending, endFlag, s)
    ensures s.unsent == Tail(k.bufs) && s.building == Payload(k.building, k.bufs) && s.ending == ending
    ensures s.endQueued <==> ending && (k.head < |k.bufs| || endFlag)
  {
  }

  lemma NoneLeftIf(k: Book)
    requires Live(k)
    ensures k.head == |k.bufs| ==> Tail(k.bufs) == []
  {
    if k.head == |k.bufs| {
      NoneLeft(k);
    }
  }

  /** The Fill step of module Protocol. */
  function Taken(s: P.Sender, count: nat): P.Sender
    requires count <= |s.unsent|
  {
    s.(unsent := s.unsent[count..], building := s.building + s.unsent[..count])
  }

  /** The SendNew step of module Protocol. */
  function Sent(s: P.Sender, end: bool): P.Sender {
    s.(building := [], endQueued := s.endQueued && !end,
       sent := s.sent + [Seg(s.building, end)], held := s.held + {|s.sent|})
  }

  /** Taken, Sent and Wrote are what the runs of module Protocol are made of. */
  lemma StepsOfProtocol(e: P.Endpoint, data: seq<Byte>, count: nat, end: bool)
    requires e.phase.Open? && count <= |e.snd.unsent|
    ensures P.Enabled(e, P.Fill(count), {}) && P.Act(e, P.Fill(count), {}).0 == e.(snd := Taken(e.snd, count))
    ensures P.Enabled(e, P.SendNew(end), {}) <==>
              (end ==> e.snd.unsent == [] && e.snd.endQueued) && (e.snd.building != [] || end)
    ensures P.Enabled(e, P.SendNew(end), {}) ==> P.Act(e, P.SendNew(end), {}).0 == e.(snd := Sent(e.snd, end))
    ensures !e.snd.ending && data != [] ==>
              P.Enabled(e, P.Write(data), {}) && P.Act(e, P.Write(data), {}).0 == e.(snd := Wrote(e.snd, data, false))
    ensures !e.snd.ending ==>
              P.Enabled(e, P.WriteEnd(data), {})
              && P.Act(e, P.WriteEnd(data), {}).0.snd.(wantsTimewait := e.snd.wantsTimewait) == Wrote(e.snd, data, true)
  {
  }

  lemma LaunchShown(k: Book, ends: seq<bool>, ending: bool, endFlag: bool, s: P.Sender)
    requires Shown(k, ends, ending, endFlag, s) && (endFlag ==> ending && k.head == |k.bufs|)
    ensures Shown(Launch(k), ends + [endFlag], ending, false, Sent(s, endFlag))
  {
  }

  // ---------- writing ----------

  function Join(data: seq<seq<Byte>>): seq<Byte> {
    if data == [] then [] else Join(data[..|data| - 1]) + data[|data| - 1]
  }

  /** The buffers of a new write. */
  function Fresh(data: seq<seq<Byte>>, w: nat): seq<Buf> {
    if data == [] then [] else Fresh(data[..|data| - 1], w) + [Buf(data[|data| - 1], w, 0, 0)]
  }

  lemma JoinMore(data: seq<seq<Byte>>, d: seq<Byte>, w: nat)
    ensures Join(data + [d]) == Join(data) + d
    ensures Fresh(data + [d], w) == Fresh(data, w) + [Buf(d, w, 0, 0)]
  {
    assert (data + [d])[..|data|] == data;
  }

  lemma JoinEmpty(data: seq<seq<Byte>>, given: seq<seq<Byte>>)
    requires given == if data == [] then [[]] else data
    ensures Join(given) == Join(data)
  {
    if data == [] {
      assert given[..0] == [] && Join(given) == [] + [];
    }
  }

  lemma EnqueueTotals(bufs: seq<Buf>, b: Buf)
    requires b.acked == 0 && b.inflight == 0
    ensures Total(bufs + [b], None, Size) == Total(bufs, None, Size) + |b.data|
    ensures Total(bufs + [b], None, Sliced) == Total(bufs, None, Sliced)
    ensures Total(bufs + [b], None, Settled) == Total(bufs, None, Settled)
  {
    TotalMore(bufs, b, None, Size);
    TotalMore(bufs, b, None, Sliced);
    TotalMore(bufs, b, None, Settled);
  }

  /** The Write and WriteEnd steps of module Protocol, but for its TIME-WAIT flag. */
  function Wrote(s: P.Sender, data: seq<Byte>, end: bool): P.Sender {
    s.(written := s.written + data, unsent := s.unsent + data, endQueued := s.endQueued || end, ending := s.ending || end)
  }

  lemma {:induction false} FreshAt(data: seq<seq<Byte>>, w: nat)
    ensures |Fresh(data, w)| == |data|
    ensures forall i :: 0 <= i < |data| ==> Fresh(data, w)[i] == Buf(data[i], w, 0, 0)
    decreases |data|
  {
    if data != [] {
      FreshAt(data[..|data| - 1], w);
    }
  }

  lemma WriteShown(k: Book, after: Book, ends: seq<bool>, endFlag: bool, s: P.Sender,
                   data: seq<seq<Byte>>, end: bool, w: nat)
    requires Live(k) && Shown(k, ends, false, endFlag, s) && !endFlag && data != []
    requires after.bufs == k.bufs + Fresh(data, w) && after.head == k.head
    requires after.packets == k.packets && after.building == k.building && after.held == k.held
    requires Concat(after.bufs) == Concat(k.bufs) + Join(data) && Tail(after.bufs) == Tail(k.bufs) + Join(data)
    ensures Shown(after, ends, end, endFlag, Wrote(s, Join(data), end))
    ensures Payload(after.building, after.bufs) == Payload(k.building, k.bufs)
  {
    FreshAt(data, w);
    LiveParts(k);
    HeadInside(k);
    PayloadsStay(k, after);
  }

  lemma AppendBegins(bufs: seq<Buf>, w: nat)
    ensures bufs == bufs + Fresh([], w) && Join([]) == []
    ensures Concat(bufs) == Concat(bufs) + Join([]) && Tail(bufs) == Tail(bufs) + Join([])
  {
  }

  lemma AppendMore(before: seq<Buf>, bufs: seq<Buf>, data: seq<seq<Byte>>, i: nat, w: nat)
    requires i < |data| && bufs == before + Fresh(data[..i], w)
    requires Concat(bufs) == Concat(before) + Join(data[..i]) && Tail(bufs) == Tail(before) + Join(data[..i])
    ensures bufs + [Buf(data[i], w, 0, 0)] == before + Fresh(data[..i + 1], w)
    ensures |Join(data[..i + 1])| == |Join(data[..i])| + |data[i]|
    ensures Concat(bufs + [Buf(data[i], w, 0, 0)]) == Concat(before) + Join(data[..i + 1])
    ensures Tail(bufs + [Buf(data[i], w, 0, 0)]) == Tail(before) + Join(data[..i + 1])
    ensures Total(bufs + [Buf(data[i], w, 0, 0)], None, Size) == Total(bufs, None, Size) + |data[i]|
    ensures Total(bufs + [Buf(data[i], w, 0, 0)], None, Sliced) == Total(bufs, None, Sliced)
    ensures Total(bufs + [Buf(data[i], w, 0, 0)], None, Settled) == Total(bufs, None, Settled)
  {
    hide *;
    var b := Buf(data[i], w, 0, 0);
    assert data[..i + 1] == data[..i] + [data[i]];
    JoinMore(data[..i], data[i], w);
    NewBuf(bufs, data[i], w);
    Associates(Concat(before), Join(data[..i]), data[i]);
    Associates(Tail(before), Join(data[..i]), data[i]);
    assert (before + Fresh(data[..i], w)) + [b] == before + (Fresh(data[..i], w) + [b]);
  }

  lemma NewBuf(bufs: seq<Buf>, d: seq<Byte>, w: nat)
    ensures var b := Buf(d, w, 0, 0);
            && Concat(bufs + [b]) == Concat(bufs) + d && Tail(bufs + [b]) == Tail(bufs) + d
            && Total(bufs + [b], None, Size) == Total(bufs, None, Size) + |d|
            && Total(bufs + [b], None, Sliced) == Total(bufs, None, Sliced)
            && Total(bufs + [b], None, Settled) == Total(bufs, None, Settled)
  {
    OneMore(bufs, Buf(d, w, 0, 0));
    EnqueueTotals(bufs, Buf(d, w, 0, 0));
  }

  /** Which writes are sound can be told when they are made: those whose last buffer is not empty. */
  lemma SoundWrite(bufs: seq<Buf>, data: seq<seq<Byte>>, w: nat)
    requires data != [] && forall b :: 0 <= b < |bufs| ==> bufs[b].write != w
    ensures Sound(bufs + Fresh(data, w), w) <==> data[|data| - 1] != []
    ensures Lone(bufs + Fresh(data, w), |bufs| + |data| - 1) <==> data == [[]]
  {
    FreshAt(data, w);
    var all := bufs + Fresh(data, w);
    var last := |all| - 1;
    assert all[last] == Buf(data[|data| - 1], w, 0, 0);
    if |data| > 1 {
      assert all[last - 1].write == w;
    }
    forall b | |bufs| <= b < |all|
      ensures all[b] == Buf(data[b - |bufs|], w, 0, 0)
    {
    }
  }

  lemma {:induction false} PiecesAll(past: seq<Slice>, bufs: seq<Buf>, w: nat)
    requires forall i :: 0 <= i < |past| ==> past[i].buf < |bufs| && bufs[past[i].buf].write == w
    ensures |Pieces(past, bufs, w)| == |past|
    ensures forall i :: 0 <= i < |past| ==> Pieces(past, bufs, w)[i] == past[i].len
    decreases |past|
  {
    if past != [] {
      PiecesAll(past[..|past| - 1], bufs, w);
    }
  }

  /** How often a lone write's on_ack has been called once its slices, in order, have been acknowledged. */
  lemma OneWriteLog(k: Book, data: seq<seq<Byte>>)
    requires Core(k) && k.head == |k.bufs| && k.held == {} && k.building == [] && k.rest == []
    requires data != [] && |k.writes| == 1 && |k.bufs| == |data| && SameData(Fresh(data, 0), k.bufs)
    requires Lengthened([], k.past, 0, k.head)
    ensures k.writes[0].acked == k.writes[0].size && k.writes[0].log != []
    ensures |k.writes[0].log| == 1 <==> data[|data| - 1] != [] || |data| == 1
  {
    FreshAt(data, 0);
    var last := |data| - 1;
    forall i | 0 <= i < |k.past|
      ensures k.past[i].buf < |k.bufs| && k.bufs[k.past[i].buf].write == 0
    {
      assert SliceOk(k, k.past[i]);
    }
    PiecesAll(k.past, k.bufs, 0);
    AllSettled(k, last);
    SettledOnce(k, 0);
    if data[last] == [] {
      assert SliceOk(k, k.past[|k.past| - 1]);
      if |data| == 1 {
        assert Lone(k.bufs, 0);
      }
    } else {
      OnlyLastMatters(k.bufs, data);
    }
  }

  lemma OnlyLastMatters(bufs: seq<Buf>, data: seq<seq<Byte>>)
    requires data != [] && data[|data| - 1] != [] && |bufs| == |data| && SameData(Fresh(data, 0), bufs)
    ensures Sound(bufs, 0)
  {
    FreshAt(data, 0);
    forall b | 0 <= b < |bufs| && bufs[b].data == []
      ensures HasNext(bufs, b)
    {
      assert Fresh(data, 0)[b].data == bufs[b].data;
      assert b + 1 < |bufs| ==> Fresh(data, 0)[b + 1].write == bufs[b + 1].write;
    }
  }

  lemma FreshSender()
    ensures P.Fresh(0, 0).snd.unsent == []
  {
  }

  lemma WroteParts(s: P.Sender, data: seq<Byte>)
    ensures Wrote(s, data, false).unsent == s.unsent + data
  {
  }

  lemma AlongParts(k: Book, after: Book, status: Status)
    requires Along(k, after, status)
    ensures |after.bufs| == |k.bufs| && SameData(k.bufs, after.bufs) && |after.writes| == |k.writes|
    ensures forall w :: 0 <= w < |k.writes| && k.writes[w].log == [] ==>
              after.writes[w].size == k.writes[w].size
              && forall i :: 0 <= i < |after.writes[w].log| ==> after.writes[w].log[i] == status
  {
    assert forall w :: 0 <= w < |k.writes| ==> Grown(k.writes[w], after.writes[w], status);
  }

  /** A write is made and fills one packet. */
  method FillOnce(data: seq<seq<Byte>>, max: nat) returns (w: Writer, ghost s: P.Sender)
    requires data != [] && max > |Join(data)|
    ensures fresh(w) && w.Valid() && w.Shows(s) && w.head == |w.bufs| == |data| && SameData(Fresh(data, 0), w.bufs)
    ensures w.writes == [Req(|Join(data)|, 0, [])] && w.past == [] && w.held == {} && w.packets == [] && !w.endFlag
    ensures Lengthened([], w.building, 0, w.head)
  {
    hide *;
    s := P.Fresh(0, 0).snd;
    FreshSender();
    w := new Writer(max);
    var r := w.Write(data, false, s);
    assert w.bufs == Fresh(data, 0) && w.writes == [Req(|Join(data)|, 0, [])];
    s := Wrote(s, Join(data), false);
    WroteParts(P.Fresh(0, 0).snd, Join(data));
    FreshSize(data);
    ghost var count := w.Fill(s);
    TakenIs(s, count);
    s := Taken(s, count);
  }

  /** A run for every write: it is sent in one packet and the peer acknowledges that. Its on_ack is called once if its last
      buffer is not empty or is the only one, and otherwise again. */
  method OneWrite(data: seq<seq<Byte>>, max: nat) returns (w: Writer)
    requires data != [] && max > |Join(data)|
    ensures w.Valid() && w.held == {} && |w.writes| == 1 && w.writes[0].acked == w.writes[0].size == |Join(data)|
    ensures w.writes[0].log != [] && forall i :: 0 <= i < |w.writes[0].log| ==> w.writes[0].log[i] == Acked
    ensures |w.writes[0].log| == 1 <==> data[|data| - 1] != [] || |data| == 1
  {
    hide *;
    ghost var s;
    w, s := FillOnce(data, max);
    ghost var p := w.building;
    w.SendBuilding(max, s);
    assert w.packets == [p] && 0 in w.held;
    w.NowIs();
    ghost var k, bufs := w.Now([]), w.bufs;
    w.AckPacket(0, Sent(s, false));
    assert w.past == p;
    AlongParts(k, w.Now([]), Acked);
    w.NowIs();
    w.Parts();
    LiveParts(w.Now([]));
    SameDataOn(Fresh(data, 0), bufs, w.bufs);
    OneWriteLog(w.Now([]), data);
  }

  lemma FreshSize(data: seq<seq<Byte>>)
    ensures |Fresh(data, 0)| == |data|
  {
    FreshAt(data, 0);
  }

  // ---------- what status 0 means ----------

  /** Nothing of a write that is settled is in a packet still held, or unsliced. */
  lemma SettledIsGone(k: Book, b: nat)
    requires Live(k) && b < |k.bufs| && k.bufs[b].write < |k.writes|
    requires var r := k.writes[k.bufs[b].write]; r.size > 0 && r.log != []
    ensures Out(k, b, false) == 0 && Amount(Flatten(k.packets), b, false) == |k.bufs[b].data|
  {
    var w := k.bufs[b].write;
    assert LogOk(k, w) && WriteOk(k, w) && BufOk(k, b);
    SettledAtMost(k, w);
    forall c | 0 <= c < |k.bufs|
      ensures Measure(k.bufs[c], Settled) <= Measure(k.bufs[c], Size)
    {
      assert BufOk(k, c);
    }
    TotalBelow(k.bufs, Some(w), Settled, Size);
    assert Of(k.bufs[b], Some(w));
    AmountJoin(Flatten(k.packets), k.building, b, false);
  }

  lemma HeldCounts(k: Book, n: nat, i: nat)
    requires n in k.held && n < |k.packets| && i < |k.packets[n]|
    ensures Out(k, k.packets[n][i].buf, false) >= k.packets[n][i].len
  {
    PacketsLess(k.packets, k.held, n, k.packets[n][i].buf, false);
    AmountAt(k.packets[n], i, false);
  }

  lemma GoneIsGot(s: P.Sender, r: Receiver, acks: set<P.Msg>, n: nat)
    requires P.AckNet(r, acks) && P.Attested(s, r, acks) && n < |s.sent| && n !in s.held
    ensures Got(r, n)
  {
    if n >= s.remoteAcked {
      assert P.Sacked(n, acks);
    }
  }

  /** Whatever the network did: once on_ack of a write has been called without the stream being cancelled, every byte of it
      is in packets, and the peer has each of these. */
  lemma AckedIsReceived(run: seq<P.System>, k: Book, ends: seq<bool>, ending: bool, endFlag: bool, w: nat)
    requires P.IsRun(run) && Live(k) && Shown(k, ends, ending, endFlag, run[|run| - 1].a.snd)
    requires w < |k.writes| && k.writes[w].size > 0 && k.writes[w].log != []
    ensures forall b :: 0 <= b < |k.bufs| && k.bufs[b].write == w ==> Amount(Flatten(k.packets), b, false) == |k.bufs[b].data|
    ensures forall n, i :: 0 <= n < |k.packets| && 0 <= i < |k.packets[n]| && k.packets[n][i].len > 0
                           && k.packets[n][i].buf < |k.bufs| && k.bufs[k.packets[n][i].buf].write == w ==>
              Got(run[|run| - 1].b.rcv, n)
  {
    S.RunSafe(run);
    var s := run[|run| - 1];
    forall b | 0 <= b < |k.bufs| && k.bufs[b].write == w
      ensures Amount(Flatten(k.packets), b, false) == |k.bufs[b].data| && Out(k, b, false) == 0
    {
      SettledIsGone(k, b);
    }
    forall n, i | 0 <= n < |k.packets| && 0 <= i < |k.packets[n]| && k.packets[n][i].len > 0
                  && k.packets[n][i].buf < |k.bufs| && k.bufs[k.packets[n][i].buf].write == w
      ensures Got(s.b.rcv, n)
    {
      if n in k.held {
        HeldCounts(k, n, i);
      }
      GoneIsGot(s.a.snd, s.b.rcv, s.ba, n);
    }
  }
}
