/** The write queue of src/udx.c and the packets cut from it, as values: every step that slices a buffer,
    sends a packet, or settles a slice because its packet was acknowledged or cancelled, in any order. */
module Books {
  import opened Receive
  import opened WriteSums
  import opened Wrappers

  datatype Status = Acked | Canceled

  /** `udx_stream_write_t`: its size, how much of it is settled, and what on_ack has been told so far. */
  datatype Req = Req(size: nat, acked: nat, log: seq<Status>)

  datatype Book = Book(
    bufs: seq<Buf>,
    head: nat,                   // the write queue holds the buffers from here on
    writes: seq<Req>,
    building: seq<Slice>,        // stream->pkt
    packets: seq<seq<Slice>>,    // every packet sent, by number
    held: set<nat>,              // stream->outgoing
    rest: seq<Slice>,            // what is left of the packet being acknowledged or cancelled
    past: seq<Slice>)            // everything settled so far, in order

  /** How much of buffer `b` is in packets that are not settled. */
  function Out(k: Book, b: nat, unit: bool): nat {
    InPackets(k.packets, k.held, b, unit) + Amount(k.building, b, unit) + Amount(k.rest, b, unit)
  }

  // ---------- how often on_ack is called ----------

  function Sum(lens: seq<nat>): nat {
    if lens == [] then 0 else Sum(lens[..|lens| - 1]) + lens[|lens| - 1]
  }

  /** on_ack is called whenever a slice has been settled and the write's count is at its size. */
  function Calls(lens: seq<nat>, size: nat): nat {
    if lens == [] then 0 else Calls(lens[..|lens| - 1], size) + if Sum(lens) == size then 1 else 0
  }

  /** The sizes of the settled slices of write `w`, in order. */
  function Pieces(past: seq<Slice>, bufs: seq<Buf>, w: nat): seq<nat> {
    if past == [] then []
    else
      var s := past[|past| - 1];
      Pieces(past[..|past| - 1], bufs, w) + if s.buf < |bufs| && bufs[s.buf].write == w then [s.len] else []
  }

  // ---------- the invariant ----------

  /** The write goes on in the next buffer. */
  predicate HasNext(bufs: seq<Buf>, b: nat) {
    b + 1 < |bufs| && bufs[b + 1].write == bufs[b].write
  }

  /** Every empty buffer of the write is followed by another of its buffers: the last one is not empty. */
  ghost predicate Sound(bufs: seq<Buf>, w: nat) {
    forall b :: 0 <= b < |bufs| && bufs[b].write == w && bufs[b].data == [] ==> HasNext(bufs, b)
  }

  /** The only buffer of its write, and empty. */
  ghost predicate Lone(bufs: seq<Buf>, b: nat) {
    && b < |bufs| && bufs[b].data == []
    && forall c :: 0 <= c < |bufs| && bufs[c].write == bufs[b].write ==> c == b
  }

  /** Every byte of a buffer is settled, in an unsettled packet, or still to be sliced; buffers go front to back. */
  ghost predicate BufOk(k: Book, b: nat) {
    b < |k.bufs| ==>
      var f := k.bufs[b];
      var n := f.acked + Out(k, b, false);
      && f.write < |k.writes|
      && n <= |f.data|
      && (b < k.head ==> n == |f.data|)
      && (b > k.head ==> n == 0)
      && (b == k.head && f.data != [] ==> n < |f.data|)
  }

  ghost predicate SliceOk(k: Book, s: Slice) {
    && s.buf < |k.bufs| && s.off + s.len <= |k.bufs[s.buf].data|
    && (s.len == 0 ==> k.bufs[s.buf].data == [] && s.buf < k.head)
  }

  ghost predicate AllOk(k: Book, p: seq<Slice>) {
    forall i :: 0 <= i < |p| ==> SliceOk(k, p[i])
  }

  /** An empty slice of a write that goes on is followed by a slice of the next buffer, in the same packet. */
  ghost predicate PairOk(bufs: seq<Buf>, p: seq<Slice>, i: nat) {
    i + 1 < |p| && p[i].len == 0 && HasNext(bufs, p[i].buf) ==> p[i + 1].buf == p[i].buf + 1
  }

  ghost predicate Linked(bufs: seq<Buf>, p: seq<Slice>) {
    forall i :: 0 <= i < |p| ==> PairOk(bufs, p, i)
  }

  ghost predicate Closed(bufs: seq<Buf>, p: seq<Slice>) {
    p != [] && p[|p| - 1].len == 0 ==> !HasNext(bufs, p[|p| - 1].buf)
  }

  /** Or else the next buffer is at the head of the write queue, whole. */
  ghost predicate Open(k: Book, p: seq<Slice>) {
    Closed(k.bufs, p)
    || (p != [] && p[|p| - 1].buf + 1 == k.head < |k.bufs| && k.bufs[k.head].acked + Out(k, k.head, false) == 0)
  }

  ghost predicate PacketOk(k: Book, n: nat) {
    && (n < |k.packets| ==> AllOk(k, k.packets[n]))
    && (n in k.held ==> n < |k.packets| && Linked(k.bufs, k.packets[n]) && Closed(k.bufs, k.packets[n]))
  }

  ghost predicate WriteOk(k: Book, w: nat) {
    w < |k.writes| ==>
      && k.writes[w].acked == Total(k.bufs, Some(w), Settled)
      && k.writes[w].size == Total(k.bufs, Some(w), Size)
  }

  /** on_ack has been called exactly if everything is settled, and not twice unless the last buffer is empty. */
  ghost predicate LogOk(k: Book, w: nat) {
    w < |k.writes| ==>
      var r := k.writes[w];
      && r.acked == Sum(Pieces(k.past, k.bufs, w))
      && |r.log| == Calls(Pieces(k.past, k.bufs, w), r.size)
      && (r.size > 0 ==> (r.log == [] <==> r.acked < r.size))
      && (r.size > 0 && Sound(k.bufs, w) ==> |r.log| <= 1)
  }

  /** A write of one empty buffer is settled with its one slice. */
  ghost predicate LoneOk(k: Book, b: nat) {
    Lone(k.bufs, b) && k.bufs[b].write < |k.writes| ==>
      |k.writes[k.bufs[b].write].log| + Out(k, b, true) == if b < k.head then 1 else 0
  }

  ghost predicate Core(k: Book) {
    && k.head <= |k.bufs|
    && (forall b :: 0 <= b < |k.bufs| ==> BufOk(k, b))
    && (forall n :: 0 <= n < |k.packets| ==> PacketOk(k, n))
    && (forall n :: n in k.held ==> PacketOk(k, n))
    && AllOk(k, k.building) && Linked(k.bufs, k.building)
    && AllOk(k, k.rest) && Linked(k.bufs, k.rest)
    && AllOk(k, k.past)
    && (forall w :: 0 <= w < |k.writes| ==> WriteOk(k, w))
    && (forall w :: 0 <= w < |k.writes| ==> LogOk(k, w))
    && (forall b :: 0 <= b < |k.bufs| ==> LoneOk(k, b))
  }

  // ---------- slicing ----------

  /** A slice is cut off the buffer at the head of the write queue. */
  function Cutting(k: Book, s: Slice, live: bool): Book {
    if k.head < |k.bufs| then
      k.(bufs := if live then k.bufs[k.head := Advance(k.bufs[k.head], s.len)] else k.bufs,
         building := k.building + [s],
         head := if k.bufs[k.head].acked + Out(k, k.head, false) + s.len == |k.bufs[k.head].data| then k.head + 1 else k.head)
    else k
  }

  ghost predicate CanCut(k: Book, s: Slice) {
    && s.buf == k.head < |k.bufs|
    && k.bufs[k.head].acked + Out(k, k.head, false) + s.len <= |k.bufs[k.head].data|
    && s.off + s.len <= |k.bufs[k.head].data|
    && (s.len == 0 ==> k.bufs[k.head].data == [])
  }

  /** The data, the writes and the settled bytes are the same; only in-flight counts may differ. */
  ghost predicate SameBufs(bufs: seq<Buf>, after: seq<Buf>) {
    && |after| == |bufs|
    && forall b :: 0 <= b < |bufs| ==>
         after[b].data == bufs[b].data && after[b].write == bufs[b].write && after[b].acked == bufs[b].acked
  }

  lemma OutCut(k: Book, s: Slice, live: bool, b: nat, unit: bool)
    requires k.head < |k.bufs|
    ensures Out(Cutting(k, s, live), b, unit) == Out(k, b, unit) + if s.buf == b then Weight(s, unit) else 0
  {
    AmountMore(k.building, s, b, unit);
  }

  lemma {:induction false} TotalSame(bufs: seq<Buf>, after: seq<Buf>, w: Option<nat>)
    requires SameBufs(bufs, after)
    ensures Total(after, w, Settled) == Total(bufs, w, Settled) && Total(after, w, Size) == Total(bufs, w, Size)
    decreases |bufs|
  {
    if bufs != [] {
      TotalSame(bufs[..|bufs| - 1], after[..|bufs| - 1], w);
    }
  }

  lemma {:induction false} PiecesSame(past: seq<Slice>, bufs: seq<Buf>, after: seq<Buf>, w: nat)
    requires forall i :: 0 <= i < |past| ==> past[i].buf < |bufs| <= |after| && after[past[i].buf].write == bufs[past[i].buf].write
    ensures Pieces(past, after, w) == Pieces(past, bufs, w)
    decreases |past|
  {
    if past != [] {
      PiecesSame(past[..|past| - 1], bufs, after, w);
    }
  }

  lemma SameSound(bufs: seq<Buf>, after: seq<Buf>)
    requires SameBufs(bufs, after)
    ensures forall w :: Sound(after, w) <==> Sound(bufs, w)
    ensures forall b :: 0 <= b < |bufs| ==> (Lone(after, b) <==> Lone(bufs, b))
    ensures forall b :: 0 <= b < |bufs| ==> (HasNext(after, b) <==> HasNext(bufs, b))
  {
  }

  lemma CutBufs(k: Book, s: Slice, live: bool)
    requires Core(k) && CanCut(k, s)
    ensures var after := Cutting(k, s, live);
            && SameBufs(k.bufs, after.bufs) && after.head <= |after.bufs|
            && forall b :: 0 <= b < |after.bufs| ==> BufOk(after, b)
  {
    var after := Cutting(k, s, live);
    forall b | 0 <= b < |k.bufs|
      ensures BufOk(after, b)
    {
      assert BufOk(k, b) && BufOk(k, k.head);
      OutCut(k, s, live, b, false);
    }
  }

  lemma SlicesStay(k: Book, after: Book, p: seq<Slice>)
    requires SameBufs(k.bufs, after.bufs) && k.head <= after.head && AllOk(k, p)
    ensures AllOk(after, p)
    ensures Linked(k.bufs, p) ==> Linked(after.bufs, p)
    ensures Closed(k.bufs, p) ==> Closed(after.bufs, p)
  {
    forall i | 0 <= i < |p|
      ensures SliceOk(after, p[i]) && (HasNext(after.bufs, p[i].buf) <==> HasNext(k.bufs, p[i].buf))
    {
      assert SliceOk(k, p[i]);
    }
    if Linked(k.bufs, p) {
      forall i | 0 <= i < |p|
        ensures PairOk(after.bufs, p, i)
      {
        assert PairOk(k.bufs, p, i);
      }
    }
  }

  lemma PacketsStay(k: Book, after: Book)
    requires Core(k) && SameBufs(k.bufs, after.bufs) && k.head <= after.head
    requires after.packets == k.packets && after.held == k.held
    ensures forall n :: 0 <= n < |k.packets| ==> PacketOk(after, n)
    ensures forall n :: n in k.held ==> PacketOk(after, n)
  {
    forall n | 0 <= n < |k.packets| || n in k.held
      ensures PacketOk(after, n)
    {
      assert PacketOk(k, n);
      if n < |k.packets| {
        SlicesStay(k, after, k.packets[n]);
      }
    }
  }

  lemma CutSlices(k: Book, s: Slice, live: bool)
    requires Core(k) && CanCut(k, s) && Open(k, k.building)
    requires SameBufs(k.bufs, Cutting(k, s, live).bufs)
    ensures var after := Cutting(k, s, live);
            AllOk(after, after.building) && Linked(after.bufs, after.building)
  {
    var after := Cutting(k, s, live);
    var p := k.building;
    SlicesStay(k, after, p);
    assert BufOk(k, k.head);
    assert SliceOk(after, s);
    forall i | 0 <= i < |p + [s]|
      ensures SliceOk(after, (p + [s])[i]) && PairOk(after.bufs, p + [s], i)
    {
      if i < |p| {
        assert PairOk(after.bufs, p, i) && SliceOk(after, p[i]);
        if i == |p| - 1 {
          assert HasNext(after.bufs, p[i].buf) <==> HasNext(k.bufs, p[i].buf);
        }
      }
    }
  }

  lemma CutOpens(k: Book, s: Slice, live: bool)
    requires Core(k) && CanCut(k, s)
    requires SameBufs(k.bufs, Cutting(k, s, live).bufs)
    ensures var after := Cutting(k, s, live);
            Open(after, after.building)
  {
    var after := Cutting(k, s, live);
    assert BufOk(k, k.head);
    if s.len == 0 && HasNext(after.bufs, k.head) {
      assert after.head == k.head + 1;
      assert BufOk(k, k.head + 1);
      OutCut(k, s, live, k.head + 1, false);
    }
  }

  lemma WritesStay(k: Book, after: Book)
    requires Core(k) && SameBufs(k.bufs, after.bufs) && after.writes == k.writes && after.past == k.past
    ensures forall w :: 0 <= w < |k.writes| ==> WriteOk(after, w) && LogOk(after, w)
  {
    SameSound(k.bufs, after.bufs);
    assert forall i :: 0 <= i < |k.past| ==> SliceOk(k, k.past[i]);
    forall w | 0 <= w < |k.writes|
      ensures WriteOk(after, w) && LogOk(after, w)
    {
      assert WriteOk(k, w) && LogOk(k, w);
      TotalSame(k.bufs, after.bufs, Some(w));
      PiecesSame(k.past, k.bufs, after.bufs, w);
    }
  }

  lemma CutLone(k: Book, s: Slice, live: bool)
    requires Core(k) && CanCut(k, s)
    requires SameBufs(k.bufs, Cutting(k, s, live).bufs)
    ensures forall b :: 0 <= b < |k.bufs| ==> LoneOk(Cutting(k, s, live), b)
  {
    var after := Cutting(k, s, live);
    SameSound(k.bufs, after.bufs);
    assert BufOk(k, k.head);
    forall b | 0 <= b < |k.bufs|
      ensures LoneOk(after, b)
    {
      assert LoneOk(k, b) && BufOk(k, b);
      OutCut(k, s, live, b, true);
    }
  }

  lemma CutKeeps(k: Book, s: Slice, live: bool)
    requires Core(k) && CanCut(k, s) && Open(k, k.building)
    ensures Core(Cutting(k, s, live)) && Open(Cutting(k, s, live), Cutting(k, s, live).building)
  {
    var after := Cutting(k, s, live);
    CutBufs(k, s, live);
    CutSlices(k, s, live);
    CutOpens(k, s, live);
    SlicesStay(k, after, k.rest);
    SlicesStay(k, after, k.past);
    PacketsStay(k, after);
    WritesStay(k, after);
    CutLone(k, s, live);
  }

  // ---------- packets change hands ----------

  /** The packet under construction is sent. */
  function Launch(k: Book): Book {
    k.(packets := k.packets + [k.building], held := k.held + {|k.packets|}, building := [])
  }

  /** Packet `n` leaves `outgoing` and is about to be settled. */
  function Take(k: Book, n: nat): Book {
    if n < |k.packets| then k.(held := k.held - {n}, rest := k.packets[n]) else k
  }

  /** The packet under construction is about to be cancelled. */
  function TakeBuilding(k: Book): Book {
    k.(building := [], rest := k.building)
  }

  /** Nothing but the place of the slices has changed. */
  ghost predicate Shifted(k: Book, after: Book) {
    && after.bufs == k.bufs && after.head == k.head && after.writes == k.writes && after.past == k.past
    && forall b, unit :: Out(after, b, unit) == Out(k, b, unit)
  }

  lemma ShiftKeeps(k: Book, after: Book)
    requires Core(k) && Shifted(k, after)
    ensures forall b :: 0 <= b < |k.bufs| ==> BufOk(after, b)
    ensures forall w :: 0 <= w < |k.writes| ==> WriteOk(after, w) && LogOk(after, w)
    ensures forall b :: 0 <= b < |k.bufs| ==> LoneOk(after, b)
    ensures forall p :: AllOk(k, p) ==> AllOk(after, p)
  {
    forall b | 0 <= b < |k.bufs|
      ensures BufOk(after, b) && LoneOk(after, b)
    {
      assert BufOk(k, b) && LoneOk(k, b);
      assert Out(after, b, false) == Out(k, b, false) && Out(after, b, true) == Out(k, b, true);
    }
    WritesStay(k, after);
    forall p | AllOk(k, p)
      ensures AllOk(after, p)
    {
      forall i | 0 <= i < |p|
        ensures SliceOk(after, p[i])
      {
        assert SliceOk(k, p[i]);
      }
    }
  }

  lemma LaunchShifts(k: Book)
    ensures Shifted(k, Launch(k))
  {
    forall b, unit
      ensures Out(Launch(k), b, unit) == Out(k, b, unit)
    {
      PacketsMore(k.packets, k.building, k.held, b, unit);
    }
  }

  lemma LaunchKeeps(k: Book)
    requires Core(k) && Closed(k.bufs, k.building)
    ensures Core(Launch(k)) && Shifted(k, Launch(k))
  {
    var after := Launch(k);
    LaunchShifts(k);
    ShiftKeeps(k, after);
    forall n | 0 <= n < |after.packets| || n in after.held
      ensures PacketOk(after, n)
    {
      if n != |k.packets| {
        assert PacketOk(k, n);
      }
    }
  }

  lemma TakeShifts(k: Book, n: nat)
    requires n in k.held && n < |k.packets| && k.rest == []
    ensures Shifted(k, Take(k, n))
  {
    forall b, unit
      ensures Out(Take(k, n), b, unit) == Out(k, b, unit)
    {
      PacketsLess(k.packets, k.held, n, b, unit);
    }
  }

  lemma TakeKeeps(k: Book, n: nat)
    requires Core(k) && n in k.held && k.rest == []
    ensures n < |k.packets| && Core(Take(k, n)) && Shifted(k, Take(k, n)) && Closed(k.bufs, Take(k, n).rest)
  {
    assert PacketOk(k, n);
    var after := Take(k, n);
    TakeShifts(k, n);
    ShiftKeeps(k, after);
    forall m | 0 <= m < |after.packets| || m in after.held
      ensures PacketOk(after, m)
    {
      assert PacketOk(k, m);
    }
  }

  lemma TakeBuildingKeeps(k: Book)
    requires Core(k) && k.rest == []
    ensures Core(TakeBuilding(k)) && Shifted(k, TakeBuilding(k))
  {
    var after := TakeBuilding(k);
    assert Shifted(k, after);
    ShiftKeeps(k, after);
    forall m | 0 <= m < |after.packets| || m in after.held
      ensures PacketOk(after, m)
    {
      assert PacketOk(k, m);
    }
  }

  // ---------- settling ----------

  function Paid(b: Buf, len: nat, live: bool): Buf {
    b.(acked := b.acked + len, inflight := if live && len <= b.inflight then b.inflight - len else b.inflight)
  }

  function Credited(r: Req, len: nat, status: Status): Req {
    r.(acked := r.acked + len, log := if r.acked + len == r.size then r.log + [status] else r.log)
  }

  /** `on_bytes_acked` and the test for on_ack, for the next slice. */
  function Settle(k: Book, status: Status): Book {
    if k.rest != [] && k.rest[0].buf < |k.bufs| && k.bufs[k.rest[0].buf].write < |k.writes| then
      var s := k.rest[0];
      var w := k.bufs[s.buf].write;
      k.(bufs := k.bufs[s.buf := Paid(k.bufs[s.buf], s.len, status.Acked?)],
         writes := k.writes[w := Credited(k.writes[w], s.len, status)],
         rest := k.rest[1..],
         past := k.past + [s])
    else k
  }

  lemma OutSettled(k: Book, status: Status, b: nat, unit: bool)
    requires Core(k) && k.rest != []
    ensures Out(k, b, unit) == Out(Settle(k, status), b, unit) + if k.rest[0].buf == b then Weight(k.rest[0], unit) else 0
  {
    assert SliceOk(k, k.rest[0]) && BufOk(k, k.rest[0].buf);
    AmountRest(k.rest, b, unit);
  }

  lemma SettleBufs(k: Book, status: Status)
    requires Core(k) && k.rest != []
    ensures var after := Settle(k, status);
            && |after.bufs| == |k.bufs| && SameData(k.bufs, after.bufs) && SameData(after.bufs, k.bufs)
            && |after.writes| == |k.writes|
            && forall b :: 0 <= b < |after.bufs| ==> BufOk(after, b)
  {
    var after := Settle(k, status);
    assert SliceOk(k, k.rest[0]) && BufOk(k, k.rest[0].buf);
    forall b | 0 <= b < |k.bufs|
      ensures BufOk(after, b)
    {
      assert BufOk(k, b);
      OutSettled(k, status, b, false);
    }
  }

  lemma DataSound(bufs: seq<Buf>, after: seq<Buf>)
    requires SameData(bufs, after) && |after| == |bufs|
    ensures forall w :: Sound(after, w) <==> Sound(bufs, w)
    ensures forall b :: 0 <= b < |bufs| ==> (Lone(after, b) <==> Lone(bufs, b))
    ensures forall b :: 0 <= b < |bufs| ==> (HasNext(after, b) <==> HasNext(bufs, b))
  {
  }

  lemma DataSlices(k: Book, after: Book, p: seq<Slice>)
    requires SameData(k.bufs, after.bufs) && |after.bufs| == |k.bufs| && after.head == k.head && AllOk(k, p)
    ensures AllOk(after, p)
    ensures Linked(k.bufs, p) ==> Linked(after.bufs, p)
    ensures Closed(k.bufs, p) ==> Closed(after.bufs, p)
  {
    DataSound(k.bufs, after.bufs);
    forall i | 0 <= i < |p|
      ensures SliceOk(after, p[i]) && (HasNext(after.bufs, p[i].buf) <==> HasNext(k.bufs, p[i].buf))
    {
      assert SliceOk(k, p[i]);
    }
    if Linked(k.bufs, p) {
      forall i | 0 <= i < |p|
        ensures PairOk(after.bufs, p, i)
      {
        assert PairOk(k.bufs, p, i);
      }
    }
  }

  lemma DataPackets(k: Book, after: Book)
    requires Core(k) && SameData(k.bufs, after.bufs) && |after.bufs| == |k.bufs| && after.head == k.head
    requires after.packets == k.packets && after.held == k.held
    ensures forall n :: 0 <= n < |k.packets| ==> PacketOk(after, n)
    ensures forall n :: n in k.held ==> PacketOk(after, n)
  {
    forall n | 0 <= n < |k.packets| || n in k.held
      ensures PacketOk(after, n)
    {
      assert PacketOk(k, n);
      if n < |k.packets| {
        DataSlices(k, after, k.packets[n]);
      }
    }
  }

  lemma LinkedRest(bufs: seq<Buf>, p: seq<Slice>)
    requires Linked(bufs, p) && p != []
    ensures Linked(bufs, p[1..])
    ensures Closed(bufs, p) ==> Closed(bufs, p[1..])
  {
    forall i | 0 <= i < |p[1..]|
      ensures PairOk(bufs, p[1..], i)
    {
      assert PairOk(bufs, p, i + 1);
    }
  }

  lemma SettleSlices(k: Book, status: Status)
    requires Core(k) && k.rest != []
    ensures var after := Settle(k, status);
            && AllOk(after, after.building) && Linked(after.bufs, after.building)
            && AllOk(after, after.rest) && Linked(after.bufs, after.rest)
            && AllOk(after, after.past)
            && (Closed(k.bufs, k.building) ==> Closed(after.bufs, after.building))
            && (Closed(k.bufs, k.rest) ==> Closed(after.bufs, after.rest))
  {
    var after := Settle(k, status);
    SettleBufs(k, status);
    assert SliceOk(k, k.rest[0]) && BufOk(k, k.rest[0].buf);
    DataSlices(k, after, k.building);
    DataSlices(k, after, k.rest);
    DataSlices(k, after, k.past);
    LinkedRest(after.bufs, k.rest);
    forall i | 0 <= i < |after.past|
      ensures SliceOk(after, after.past[i])
    {
      assert i < |k.past| ==> SliceOk(after, k.past[i]);
      assert SliceOk(after, k.rest[0]);
    }
  }

  /** From the head of the queue on, a write whose last buffer is not empty has a buffer that is not settled. */
  lemma {:induction false} UnsettledAhead(k: Book, b: nat) returns (c: nat)
    requires Core(k) && k.head <= b < |k.bufs| && Sound(k.bufs, k.bufs[b].write)
    requires k.bufs[b].acked == 0
    ensures c < |k.bufs| && k.bufs[c].write == k.bufs[b].write && k.bufs[c].acked < |k.bufs[c].data|
    decreases |k.bufs| - b
  {
    if k.bufs[b].data != [] {
      c := b;
    } else {
      assert HasNext(k.bufs, b);
      assert BufOk(k, b + 1);
      c := UnsettledAhead(k, b + 1);
    }
  }

  /** Behind an empty slice of such a write, the packet or the queue has a byte of it that is not settled. */
  lemma {:induction false} UnsettledBehind(k: Book, i: nat) returns (c: nat)
    requires Core(k) && Open(k, k.rest) && i < |k.rest| && k.rest[i].len == 0
    requires k.rest[i].buf < |k.bufs| && Sound(k.bufs, k.bufs[k.rest[i].buf].write)
    ensures c < |k.bufs| && k.bufs[c].write == k.bufs[k.rest[i].buf].write && k.bufs[c].acked < |k.bufs[c].data|
    decreases |k.rest| - i
  {
    var b := k.rest[i].buf;
    assert SliceOk(k, k.rest[i]);
    assert HasNext(k.bufs, b);
    if i + 1 < |k.rest| {
      assert PairOk(k.bufs, k.rest, i) && SliceOk(k, k.rest[i + 1]) && BufOk(k, b + 1);
      if k.rest[i + 1].len > 0 {
        AmountAt(k.rest, i + 1, false);
        c := b + 1;
      } else {
        c := UnsettledBehind(k, i + 1);
      }
    } else {
      c := UnsettledAhead(k, b + 1);
    }
  }

  lemma SettleTotals(k: Book, status: Status, w: nat)
    requires Core(k) && k.rest != [] && w < |k.writes|
    ensures WriteOk(Settle(k, status), w)
  {
    var s := k.rest[0];
    assert SliceOk(k, s) && BufOk(k, s.buf) && WriteOk(k, w);
    TotalSet(k.bufs, s.buf, Paid(k.bufs[s.buf], s.len, status.Acked?), Some(w), Settled);
    TotalSet(k.bufs, s.buf, Paid(k.bufs[s.buf], s.len, status.Acked?), Some(w), Size);
  }

  lemma SettledIsLess(k: Book, w: nat, c: nat)
    requires Core(k) && w < |k.writes| && c < |k.bufs| && k.bufs[c].write == w && k.bufs[c].acked < |k.bufs[c].data|
    ensures k.writes[w].acked < k.writes[w].size
  {
    assert WriteOk(k, w);
    forall b | 0 <= b < |k.bufs|
      ensures Measure(k.bufs[b], Settled) <= Measure(k.bufs[b], Size)
    {
      assert BufOk(k, b);
    }
    TotalBelow(k.bufs, Some(w), Settled, Size);
    assert Of(k.bufs[c], Some(w)) && Measure(k.bufs[c], Settled) != Measure(k.bufs[c], Size);
  }

  lemma SettledAtMost(k: Book, w: nat)
    requires w < |k.writes| && WriteOk(k, w)
    requires forall b :: 0 <= b < |k.bufs| ==> BufOk(k, b)
    ensures k.writes[w].acked <= k.writes[w].size
  {
    forall b | 0 <= b < |k.bufs|
      ensures Measure(k.bufs[b], Settled) <= Measure(k.bufs[b], Size)
    {
      assert BufOk(k, b);
    }
    TotalBelow(k.bufs, Some(w), Settled, Size);
  }

  lemma PiecesMore(past: seq<Slice>, s: Slice, bufs: seq<Buf>, w: nat, size: nat)
    requires s.buf < |bufs|
    ensures var p := Pieces(past, bufs, w);
            var q := Pieces(past + [s], bufs, w);
            && (bufs[s.buf].write != w ==> q == p)
            && (bufs[s.buf].write == w ==> Sum(q) == Sum(p) + s.len)
            && (bufs[s.buf].write == w ==> Calls(q, size) == Calls(p, size) + if Sum(p) + s.len == size then 1 else 0)
  {
    assert (past + [s])[..|past|] == past;
    assert (Pieces(past, bufs, w) + [s.len])[..|Pieces(past, bufs, w)|] == Pieces(past, bufs, w);
  }

  lemma SettlePieces(k: Book, status: Status, w: nat)
    requires Core(k) && k.rest != [] && k.rest[0].buf < |k.bufs| && w < |k.writes|
    requires SameData(k.bufs, Settle(k, status).bufs)
    ensures var after := Settle(k, status);
            var p := Pieces(k.past, k.bufs, w);
            var q := Pieces(k.past + [k.rest[0]], after.bufs, w);
            && (k.bufs[k.rest[0].buf].write != w ==> q == p)
            && (k.bufs[k.rest[0].buf].write == w ==> Sum(q) == Sum(p) + k.rest[0].len)
            && (k.bufs[k.rest[0].buf].write == w ==>
                  Calls(q, k.writes[w].size)
                  == Calls(p, k.writes[w].size) + if Sum(p) + k.rest[0].len == k.writes[w].size then 1 else 0)
  {
    var after := Settle(k, status);
    assert forall i :: 0 <= i < |k.past| ==> SliceOk(k, k.past[i]);
    PiecesSame(k.past, k.bufs, after.bufs, w);
    PiecesMore(k.past, k.rest[0], after.bufs, w, k.writes[w].size);
  }

  lemma SettleLog(k: Book, status: Status, w: nat)
    requires Core(k) && k.rest != [] && Open(k, k.rest) && w < |k.writes|
    ensures LogOk(Settle(k, status), w)
  {
    var after := Settle(k, status);
    var s := k.rest[0];
    assert SliceOk(k, s) && BufOk(k, s.buf) && LogOk(k, w);
    SettleBufs(k, status);
    DataSound(k.bufs, after.bufs);
    SettlePieces(k, status, w);
    SettleTotals(k, status, w);
    SettledAtMost(after, w);
    if k.bufs[s.buf].write == w && s.len == 0 && Sound(k.bufs, w) {
      var c := UnsettledBehind(k, 0);
      SettledIsLess(k, w, c);
    }
  }

  lemma {:induction false} LoneTotal(bufs: seq<Buf>, w: nat)
    requires forall c :: 0 <= c < |bufs| && bufs[c].write == w ==> bufs[c].data == []
    ensures Total(bufs, Some(w), Size) == 0
    decreases |bufs|
  {
    if bufs != [] {
      LoneTotal(bufs[..|bufs| - 1], w);
    }
  }

  lemma SettleLone(k: Book, status: Status, b: nat)
    requires Core(k) && k.rest != [] && b < |k.bufs|
    ensures LoneOk(Settle(k, status), b)
  {
    var after := Settle(k, status);
    var s := k.rest[0];
    assert SliceOk(k, s) && BufOk(k, s.buf) && BufOk(k, b) && LoneOk(k, b);
    SettleBufs(k, status);
    DataSound(k.bufs, after.bufs);
    OutSettled(k, status, b, true);
    if Lone(k.bufs, b) && s.buf == b {
      LoneTotal(k.bufs, k.bufs[b].write);
      assert WriteOk(k, k.bufs[b].write);
      SettleTotals(k, status, k.bufs[b].write);
      SettledAtMost(k, k.bufs[b].write);
    }
  }

  lemma SettleOpen(k: Book, status: Status)
    requires Core(k) && k.rest != [] && Open(k, k.rest)
    ensures Open(Settle(k, status), Settle(k, status).rest)
  {
    var after := Settle(k, status);
    SettleSlices(k, status);
    SettleBufs(k, status);
    if !Closed(k.bufs, k.rest) && |k.rest| > 1 {
      assert k.rest[1..][|k.rest[1..]| - 1] == k.rest[|k.rest| - 1];
      assert SliceOk(k, k.rest[0]);
      OutSettled(k, status, k.head, false);
    }
  }

  lemma SettleKeeps(k: Book, status: Status)
    requires Core(k) && k.rest != [] && Open(k, k.rest)
    ensures Core(Settle(k, status)) && Open(Settle(k, status), Settle(k, status).rest)
  {
    var after := Settle(k, status);
    SettleBufs(k, status);
    SettleSlices(k, status);
    SettleOpen(k, status);
    DataPackets(k, after);
    forall w | 0 <= w < |after.writes|
      ensures WriteOk(after, w) && LogOk(after, w)
    {
      SettleTotals(k, status, w);
      SettleLog(k, status, w);
    }
    forall b | 0 <= b < |after.bufs|
      ensures LoneOk(after, b)
    {
      SettleLone(k, status, b);
    }
  }

  // ---------- writing ----------

  function Start(k: Book): Book {
    k.(writes := k.writes + [Req(0, 0, [])])
  }

  /** The last write gets one more buffer, at the tail of the write queue. */
  function Enqueue(k: Book, d: seq<Byte>): Book {
    if k.writes == [] then k
    else
      var w := |k.writes| - 1;
      k.(bufs := k.bufs + [Buf(d, w, 0, 0)], writes := k.writes[w := k.writes[w].(size := k.writes[w].size + |d|)])
  }

  /** Nothing of the last write has been sliced. */
  ghost predicate Untouched(k: Book) {
    && k.writes != [] && k.writes[|k.writes| - 1].acked == 0 && k.writes[|k.writes| - 1].log == []
    && (forall b :: 0 <= b < |k.bufs| && k.bufs[b].write == |k.writes| - 1 ==> b >= k.head && k.bufs[b].acked + Out(k, b, false) == 0)
    && (forall i :: 0 <= i < |k.past| ==> k.past[i].buf < |k.bufs| && k.bufs[k.past[i].buf].write != |k.writes| - 1)
  }

  lemma {:induction false} TotalNone(bufs: seq<Buf>, w: nat, q: Part)
    requires forall b :: 0 <= b < |bufs| ==> bufs[b].write != w
    ensures Total(bufs, Some(w), q) == 0
    decreases |bufs|
  {
    if bufs != [] {
      TotalNone(bufs[..|bufs| - 1], w, q);
    }
  }

  lemma {:induction false} PiecesNone(past: seq<Slice>, bufs: seq<Buf>, w: nat)
    requires forall i :: 0 <= i < |past| ==> past[i].buf < |bufs| && bufs[past[i].buf].write != w
    ensures Pieces(past, bufs, w) == []
    decreases |past|
  {
    if past != [] {
      PiecesNone(past[..|past| - 1], bufs, w);
    }
  }

  lemma StartBufs(k: Book, b: nat)
    requires Core(k) && b < |k.bufs|
    ensures BufOk(Start(k), b) && LoneOk(Start(k), b) && k.bufs[b].write < |k.writes|
  {
    assert BufOk(k, b) && LoneOk(k, b);
    assert Out(Start(k), b, false) == Out(k, b, false) && Out(Start(k), b, true) == Out(k, b, true);
  }

  lemma StartWrites(k: Book, w: nat)
    requires Core(k) && w <= |k.writes|
    requires forall b :: 0 <= b < |k.bufs| ==> k.bufs[b].write < |k.writes|
    ensures WriteOk(Start(k), w) && LogOk(Start(k), w)
  {
    if w < |k.writes| {
      assert WriteOk(k, w) && LogOk(k, w);
    } else {
      assert forall i :: 0 <= i < |k.past| ==> SliceOk(k, k.past[i]);
      TotalNone(k.bufs, w, Settled);
      TotalNone(k.bufs, w, Size);
      PiecesNone(k.past, k.bufs, w);
    }
  }

  lemma StartKeeps(k: Book)
    requires Core(k)
    ensures Core(Start(k)) && Untouched(Start(k))
  {
    var after := Start(k);
    forall b | 0 <= b < |k.bufs|
      ensures BufOk(after, b) && LoneOk(after, b) && k.bufs[b].write < |k.writes|
    {
      StartBufs(k, b);
    }
    assert forall i :: 0 <= i < |k.past| ==> SliceOk(k, k.past[i]);
    DataSlices(k, after, k.building);
    DataSlices(k, after, k.rest);
    DataSlices(k, after, k.past);
    DataPackets(k, after);
    forall w | 0 <= w < |after.writes|
      ensures WriteOk(after, w) && LogOk(after, w)
    {
      StartWrites(k, w);
    }
  }

  lemma {:induction false} AmountNone(p: seq<Slice>, b: nat, unit: bool)
    requires forall i :: 0 <= i < |p| ==> p[i].buf != b
    ensures Amount(p, b, unit) == 0
    decreases |p|
  {
    if p != [] {
      AmountNone(p[..|p| - 1], b, unit);
    }
  }

  lemma {:induction false} InPacketsNone(packets: seq<seq<Slice>>, s: set<nat>, b: nat, unit: bool)
    requires forall n :: 0 <= n < |packets| ==> Amount(packets[n], b, unit) == 0
    ensures InPackets(packets, s, b, unit) == 0
    decreases |packets|
  {
    if packets != [] {
      InPacketsNone(packets[..|packets| - 1], s, b, unit);
    }
  }

  lemma OutNone(k: Book, b: nat, unit: bool)
    requires Core(k) && b >= |k.bufs|
    ensures Out(k, b, unit) == 0
  {
    forall n | 0 <= n < |k.packets|
      ensures Amount(k.packets[n], b, unit) == 0
    {
      assert PacketOk(k, n);
      assert forall i :: 0 <= i < |k.packets[n]| ==> SliceOk(k, k.packets[n][i]);
      AmountNone(k.packets[n], b, unit);
    }
    InPacketsNone(k.packets, k.held, b, unit);
    assert forall i :: 0 <= i < |k.building| ==> SliceOk(k, k.building[i]);
    assert forall i :: 0 <= i < |k.rest| ==> SliceOk(k, k.rest[i]);
    AmountNone(k.building, b, unit);
    AmountNone(k.rest, b, unit);
  }

  lemma EnqueueBufs(k: Book, d: seq<Byte>)
    requires Core(k) && Untouched(k)
    ensures var after := Enqueue(k, d);
            && SameData(k.bufs, after.bufs)
            && forall b :: 0 <= b < |after.bufs| ==> BufOk(after, b) && LoneOk(after, b)
  {
    var after := Enqueue(k, d);
    forall b | 0 <= b < |after.bufs|
      ensures BufOk(after, b) && LoneOk(after, b)
    {
      if b < |k.bufs| {
        assert BufOk(k, b) && LoneOk(k, b);
        assert Lone(after.bufs, b) ==> Lone(k.bufs, b) by {
          assert forall c :: 0 <= c < |k.bufs| ==> after.bufs[c] == k.bufs[c];
        }
      } else {
        OutNone(k, b, false);
        OutNone(k, b, true);
      }
    }
  }

  lemma EnqueueSlices(k: Book, d: seq<Byte>, p: seq<Slice>)
    requires Core(k) && Untouched(k) && AllOk(k, p)
    ensures AllOk(Enqueue(k, d), p)
    ensures Linked(k.bufs, p) ==> Linked(Enqueue(k, d).bufs, p)
    ensures Closed(k.bufs, p) ==> Closed(Enqueue(k, d).bufs, p)
  {
    var after := Enqueue(k, d);
    forall i | 0 <= i < |p|
      ensures SliceOk(after, p[i]) && (p[i].len == 0 ==> (HasNext(after.bufs, p[i].buf) <==> HasNext(k.bufs, p[i].buf)))
    {
      assert SliceOk(k, p[i]);
    }
    if Linked(k.bufs, p) {
      forall i | 0 <= i < |p|
        ensures PairOk(after.bufs, p, i)
      {
        assert PairOk(k.bufs, p, i);
      }
    }
  }

  lemma EnqueueLog(k: Book, d: seq<Byte>, w: nat)
    requires Core(k) && Untouched(k) && w < |k.writes|
    ensures WriteOk(Enqueue(k, d), w) && LogOk(Enqueue(k, d), w)
  {
    var after := Enqueue(k, d);
    var last := |k.writes| - 1;
    assert WriteOk(k, w) && LogOk(k, w);
    TotalMore(k.bufs, Buf(d, last, 0, 0), Some(w), Settled);
    TotalMore(k.bufs, Buf(d, last, 0, 0), Some(w), Size);
    PiecesSame(k.past, k.bufs, after.bufs, w);
    if w == last {
      PiecesNone(k.past, k.bufs, w);
    } else if Sound(after.bufs, w) {
      forall b | 0 <= b < |k.bufs| && k.bufs[b].write == w && k.bufs[b].data == []
        ensures HasNext(k.bufs, b)
      {
        assert after.bufs[b] == k.bufs[b] && HasNext(after.bufs, b);
      }
    }
  }

  lemma EnqueueKeeps(k: Book, d: seq<Byte>)
    requires Core(k) && Untouched(k)
    ensures Core(Enqueue(k, d)) && Untouched(Enqueue(k, d))
    ensures Closed(k.bufs, k.building) ==> Closed(Enqueue(k, d).bufs, k.building)
    ensures Closed(k.bufs, k.rest) ==> Closed(Enqueue(k, d).bufs, k.rest)
  {
    var after := Enqueue(k, d);
    EnqueueBufs(k, d);
    EnqueueSlices(k, d, k.building);
    EnqueueSlices(k, d, k.rest);
    EnqueueSlices(k, d, k.past);
    forall n | 0 <= n < |after.packets| || n in after.held
      ensures PacketOk(after, n)
    {
      assert PacketOk(k, n);
      if n < |k.packets| {
        EnqueueSlices(k, d, k.packets[n]);
      }
    }
    forall w | 0 <= w < |after.writes|
      ensures WriteOk(after, w) && LogOk(after, w)
    {
      EnqueueLog(k, d, w);
    }
    EnqueueUntouched(k, d);
  }

  lemma EnqueueUntouched(k: Book, d: seq<Byte>)
    requires Core(k) && Untouched(k)
    ensures Untouched(Enqueue(k, d))
  {
    var after := Enqueue(k, d);
    OutNone(k, |k.bufs|, false);
    assert forall b :: Out(after, b, false) == Out(k, b, false);
  }

  // ---------- the bytes ----------

  /** The slices of every packet so far, and of the one under construction. */
  function Slices(k: Book): seq<Slice> {
    Flatten(k.packets) + k.building
  }

  /** While no packet is cancelled: bytes_inflight of a buffer is what is in packets that are not acknowledged,
      bytes_acked + bytes_inflight is all that has ever been sliced from it, and the packets carry exactly the
      front of what was written. */
  ghost predicate Flow(k: Book) {
    && (forall b :: 0 <= b < |k.bufs| ==> k.bufs[b].inflight == Out(k, b, false))
    && (forall b :: 0 <= b < |k.bufs| ==> Cut(k.bufs[b]) == Amount(Slices(k), b, false))
    && Payload(Slices(k), k.bufs) == Front(k.bufs)
  }

  lemma FlowOrder(k: Book)
    requires Core(k) && Flow(k)
    ensures InOrder(k.bufs, k.head)
  {
    forall b | 0 <= b < |k.bufs|
      ensures Cut(k.bufs[b]) <= |k.bufs[b].data|
      ensures b < k.head ==> Cut(k.bufs[b]) == |k.bufs[b].data|
      ensures b > k.head ==> Cut(k.bufs[b]) == 0
    {
      assert BufOk(k, b);
      assert k.bufs[b].inflight == Out(k, b, false);
    }
  }

  /** Everything written is in packets, or under construction, or still in the queue, in that order. */
  lemma Conserved(k: Book)
    requires Core(k) && Flow(k)
    ensures Concat(k.bufs) == Payload(Flatten(k.packets), k.bufs) + Payload(k.building, k.bufs) + Tail(k.bufs)
  {
    FlowOrder(k);
    FrontTail(k.bufs, k.head);
    PayloadJoin(Flatten(k.packets), k.building, k.bufs);
  }

  lemma {:induction false} FlattenOk(k: Book, packets: seq<seq<Slice>>)
    requires forall n :: 0 <= n < |packets| ==> AllOk(k, packets[n])
    ensures AllOk(k, Flatten(packets))
    decreases |packets|
  {
    if packets != [] {
      var m := |packets| - 1;
      FlattenOk(k, packets[..m]);
      JoinOk(k, Flatten(packets[..m]), packets[m]);
    }
  }

  lemma JoinOk(k: Book, p: seq<Slice>, q: seq<Slice>)
    requires AllOk(k, p) && AllOk(k, q)
    ensures AllOk(k, p + q)
  {
    forall i | 0 <= i < |p + q|
      ensures SliceOk(k, (p + q)[i])
    {
      assert i < |p| ==> SliceOk(k, p[i]);
      assert i >= |p| ==> SliceOk(k, q[i - |p|]);
    }
  }

  lemma SlicesOk(k: Book)
    requires Core(k)
    ensures forall i :: 0 <= i < |Slices(k)| ==> Slices(k)[i].buf < |k.bufs|
  {
    forall n | 0 <= n < |k.packets|
      ensures AllOk(k, k.packets[n])
    {
      assert PacketOk(k, n);
    }
    FlattenOk(k, k.packets);
    JoinOk(k, Flatten(k.packets), k.building);
    assert forall i :: 0 <= i < |Slices(k)| ==> SliceOk(k, Slices(k)[i]);
  }

  lemma CutCounts(k: Book, s: Slice)
    requires Core(k) && Flow(k) && CanCut(k, s)
    ensures var after := Cutting(k, s, true);
            forall b :: 0 <= b < |after.bufs| ==>
              after.bufs[b].inflight == Out(after, b, false) && Cut(after.bufs[b]) == Amount(Slices(after), b, false)
  {
    var after := Cutting(k, s, true);
    assert Slices(after) == Slices(k) + [s];
    forall b | 0 <= b < |k.bufs|
      ensures after.bufs[b].inflight == Out(after, b, false) && Cut(after.bufs[b]) == Amount(Slices(after), b, false)
    {
      OutCut(k, s, true, b, false);
      AmountMore(Slices(k), s, b, false);
    }
  }

  lemma CutIsPiece(k: Book, s: Slice)
    requires Core(k) && Flow(k) && CanCut(k, s) && s.off == Cut(k.bufs[k.head])
    ensures BytesOf(s, k.bufs) == Piece(k.bufs[k.head], s.len)
    ensures BytesOf(s, Cutting(k, s, true).bufs) == Piece(k.bufs[k.head], s.len)
    ensures Cutting(k, s, true).bufs == k.bufs[k.head := Advance(k.bufs[k.head], s.len)]
    ensures SameData(k.bufs, Cutting(k, s, true).bufs)
    ensures Cut(k.bufs[k.head]) + s.len <= |k.bufs[k.head].data|
    ensures Slices(Cutting(k, s, true)) == Slices(k) + [s]
    ensures Cutting(k, s, true).building == k.building + [s]
  {
  }

  lemma CutPayload(k: Book, s: Slice)
    requires Core(k) && Flow(k) && CanCut(k, s) && s.off == Cut(k.bufs[k.head])
    ensures Payload(Slices(Cutting(k, s, true)), Cutting(k, s, true).bufs) == Front(Cutting(k, s, true).bufs)
    ensures Tail(k.bufs) == BytesOf(s, k.bufs) + Tail(Cutting(k, s, true).bufs)
    ensures Payload(Cutting(k, s, true).building, k.bufs) == Payload(k.building, k.bufs) + BytesOf(s, k.bufs)
    ensures Concat(Cutting(k, s, true).bufs) == Concat(k.bufs)
  {
    FlowOrder(k);
    SlicesOk(k);
    CutIsPiece(k, s);
    FlowFront(k);
    HeadIs(k, s);
    hide *;
    SliceMoves(k.bufs, k.head, s.len);
    PayloadMore(Slices(k), s, Cutting(k, s, true).bufs);
    PayloadMore(k.building, s, k.bufs);
    PayloadFrame(Slices(k), k.bufs, Cutting(k, s, true).bufs);
  }

  lemma FlowFront(k: Book)
    requires Flow(k)
    ensures Payload(Slices(k), k.bufs) == Front(k.bufs)
  {
  }

  lemma HeadIs(k: Book, s: Slice)
    requires CanCut(k, s)
    ensures s.buf == k.head < |k.bufs|
  {
  }

  lemma CutFlows(k: Book, s: Slice)
    requires Core(k) && Flow(k) && CanCut(k, s) && s.off == Cut(k.bufs[k.head])
    ensures Flow(Cutting(k, s, true))
  {
    CutCounts(k, s);
    CutPayload(k, s);
  }

  lemma LaunchFlows(k: Book)
    requires Core(k) && Flow(k)
    ensures Flow(Launch(k))
  {
    LaunchShifts(k);
    assert (k.packets + [k.building])[..|k.packets|] == k.packets;
    assert Slices(Launch(k)) == Slices(k);
  }

  lemma TakeFlows(k: Book, n: nat)
    requires Core(k) && Flow(k) && n in k.held && k.rest == []
    ensures Flow(Take(k, n))
  {
    TakeKeeps(k, n);
    assert Slices(Take(k, n)) == Slices(k);
  }

  lemma SettleFlows(k: Book)
    requires Core(k) && Flow(k) && k.rest != []
    ensures Flow(Settle(k, Acked))
    ensures Tail(Settle(k, Acked).bufs) == Tail(k.bufs) && Front(Settle(k, Acked).bufs) == Front(k.bufs)
    ensures Concat(Settle(k, Acked).bufs) == Concat(k.bufs)
    ensures SameData(k.bufs, Settle(k, Acked).bufs)
  {
    var after := Settle(k, Acked);
    var s := k.rest[0];
    assert SliceOk(k, s) && BufOk(k, s.buf);
    SettleBufs(k, Acked);
    OutSettled(k, Acked, s.buf, false);
    BytesSet(k.bufs, s.buf, Paid(k.bufs[s.buf], s.len, true));
    SlicesOk(k);
    PayloadFrame(Slices(k), k.bufs, after.bufs);
    forall b | 0 <= b < |k.bufs|
      ensures after.bufs[b].inflight == Out(after, b, false) && Cut(after.bufs[b]) == Amount(Slices(after), b, false)
    {
      OutSettled(k, Acked, b, false);
    }
  }

  lemma StartFlows(k: Book)
    requires Core(k) && Flow(k)
    ensures Flow(Start(k))
  {
    assert forall b :: Out(Start(k), b, false) == Out(k, b, false);
  }

  lemma EnqueueCounts(k: Book, d: seq<Byte>)
    requires Core(k) && Flow(k) && k.writes != []
    ensures var after := Enqueue(k, d);
            forall b :: 0 <= b < |after.bufs| ==>
              after.bufs[b].inflight == Out(after, b, false) && Cut(after.bufs[b]) == Amount(Slices(after), b, false)
  {
    var after := Enqueue(k, d);
    SlicesOk(k);
    OutNone(k, |k.bufs|, false);
    AmountNone(Slices(k), |k.bufs|, false);
    forall b | 0 <= b < |after.bufs|
      ensures after.bufs[b].inflight == Out(after, b, false) && Cut(after.bufs[b]) == Amount(Slices(after), b, false)
    {
      assert Slices(after) == Slices(k) && Out(after, b, false) == Out(k, b, false);
    }
  }

  lemma OneMore(bufs: seq<Buf>, b: Buf)
    requires Cut(b) == 0
    ensures Front(bufs + [b]) == Front(bufs)
    ensures Tail(bufs + [b]) == Tail(bufs) + b.data
    ensures Concat(bufs + [b]) == Concat(bufs) + b.data
    ensures SameData(bufs, bufs + [b])
  {
    assert (bufs + [b])[..|bufs|] == bufs;
    assert FrontOf(b) == [] && TailOf(b) == b.data;
  }

  lemma EnqueueFlows(k: Book, d: seq<Byte>)
    requires Core(k) && Flow(k) && k.writes != []
    ensures Flow(Enqueue(k, d))
    ensures Tail(Enqueue(k, d).bufs) == Tail(k.bufs) + d && Concat(Enqueue(k, d).bufs) == Concat(k.bufs) + d
    ensures SameData(k.bufs, Enqueue(k, d).bufs)
  {
    EnqueueCounts(k, d);
    SlicesOk(k);
    OneMore(k.bufs, Buf(d, |k.writes| - 1, 0, 0));
    PayloadFrame(Slices(k), k.bufs, Enqueue(k, d).bufs);
  }

  // ---------- on_ack exactly once ----------

  lemma {:induction false} CallsNone(lens: seq<nat>, size: nat)
    requires Sum(lens) < size
    ensures Calls(lens, size) == 0
    decreases |lens|
  {
    if lens != [] {
      CallsNone(lens[..|lens| - 1], size);
    }
  }

  /** Slices of these sizes, settled in this order, get their write's on_ack called exactly once
      if and only if the last one is not empty or is the only one. */
  lemma {:induction false} CallsOnce(lens: seq<nat>)
    requires lens != []
    ensures Calls(lens, Sum(lens)) >= 1
    ensures Calls(lens, Sum(lens)) == 1 <==> |lens| == 1 || lens[|lens| - 1] > 0
    decreases |lens|
  {
    var m := |lens| - 1;
    if lens[m] > 0 {
      CallsNone(lens[..m], Sum(lens));
    } else if m > 0 {
      CallsOnce(lens[..m]);
    }
  }

  /** A write of "x" and then an empty buffer: on_ack is called twice. */
  lemma TrailingEmptyBuffer()
    ensures Calls([1, 0], Sum([1, 0])) == 2
  {
    assert [1, 0][..1] == [1] && [1][..0] == [];
    assert Sum([1]) == 1 && Sum([1, 0]) == 1;
    assert Calls([1], 1) == 1;
  }

  /** Once a write is settled, how often its on_ack has been called depends on the last settled slice alone. */
  lemma SettledOnce(k: Book, w: nat)
    requires Core(k) && w < |k.writes| && k.writes[w].acked == k.writes[w].size && Pieces(k.past, k.bufs, w) != []
    ensures k.writes[w].log != []
    ensures var p := Pieces(k.past, k.bufs, w);
            |k.writes[w].log| == 1 <==> |p| == 1 || p[|p| - 1] > 0
  {
    assert LogOk(k, w);
    CallsOnce(Pieces(k.past, k.bufs, w));
  }

  lemma {:induction false} SoundHasByte(bufs: seq<Buf>, b: nat) returns (c: nat)
    requires b < |bufs| && Sound(bufs, bufs[b].write)
    ensures c < |bufs| && bufs[c].write == bufs[b].write && bufs[c].data != []
    decreases |bufs| - b
  {
    if bufs[b].data != [] {
      c := b;
    } else {
      assert HasNext(bufs, b);
      c := SoundHasByte(bufs, b + 1);
    }
  }

  /** With nothing in the queue and nothing in packets, every write is settled, and its on_ack has been called
      exactly once, unless its last buffer is empty and not its only one. */
  lemma AllSettled(k: Book, b: nat)
    requires Core(k) && k.head == |k.bufs| && k.held == {} && k.building == [] && k.rest == [] && b < |k.bufs|
    ensures k.bufs[b].write < |k.writes| && k.bufs[b].acked == |k.bufs[b].data|
    ensures k.writes[k.bufs[b].write].acked == k.writes[k.bufs[b].write].size
    ensures Sound(k.bufs, k.bufs[b].write) || Lone(k.bufs, b) ==> |k.writes[k.bufs[b].write].log| == 1
  {
    var w := k.bufs[b].write;
    NothingOut(k);
    assert BufOk(k, b) && WriteOk(k, w) && LogOk(k, w) && LoneOk(k, b);
    TotalBelow(k.bufs, Some(w), Settled, Size);
    if Sound(k.bufs, w) {
      var c := SoundHasByte(k.bufs, b);
      SizeAt(k.bufs, c);
    }
  }

  lemma NothingOut(k: Book)
    requires Core(k) && k.head == |k.bufs| && k.held == {} && k.building == [] && k.rest == []
    ensures forall b :: 0 <= b < |k.bufs| ==> k.bufs[b].acked == |k.bufs[b].data| && Out(k, b, true) == 0
  {
    forall b | 0 <= b < |k.bufs|
      ensures k.bufs[b].acked == |k.bufs[b].data| && Out(k, b, true) == 0
    {
      assert BufOk(k, b);
      PacketsNone(k.packets, b, false);
      PacketsNone(k.packets, b, true);
    }
  }

  lemma {:induction false} SizeAt(bufs: seq<Buf>, c: nat)
    requires c < |bufs|
    ensures Total(bufs, Some(bufs[c].write), Size) >= |bufs[c].data|
    decreases |bufs|
  {
    if c < |bufs| - 1 {
      SizeAt(bufs[..|bufs| - 1], c);
    }
  }

  // ---------- whole packets ----------

  /** While no packet is cancelled. */
  ghost predicate Live(k: Book) {
    Core(k) && Flow(k) && Closed(k.bufs, k.building) && Closed(k.bufs, k.rest)
  }

  /** While packets are cancelled. */
  ghost predicate Dying(k: Book) {
    Core(k) && Open(k, k.rest)
  }

  /** Since then on_ack has only been told `status`. */
  ghost predicate Grown(a: Req, b: Req, status: Status) {
    && a.size == b.size && a.log <= b.log
    && forall i :: |a.log| <= i < |b.log| ==> b.log[i] == status
  }

  ghost predicate Along(k: Book, after: Book, status: Status) {
    && |after.bufs| == |k.bufs| && SameData(k.bufs, after.bufs) && |after.writes| == |k.writes|
    && forall w :: 0 <= w < |k.writes| ==> Grown(k.writes[w], after.writes[w], status)
  }

  lemma SettleGrows(k: Book, status: Status)
    requires Core(k) && k.rest != []
    ensures Along(k, Settle(k, status), status)
  {
    SettleBufs(k, status);
  }

  lemma AlongOn(k: Book, m: Book, after: Book, status: Status)
    requires Along(k, m, status) && Along(m, after, status)
    ensures Along(k, after, status)
  {
    forall w | 0 <= w < |k.writes|
      ensures Grown(k.writes[w], after.writes[w], status)
    {
      assert Grown(k.writes[w], m.writes[w], status) && Grown(m.writes[w], after.writes[w], status);
    }
  }

  lemma SettleLives(k: Book)
    requires Live(k) && k.rest != []
    ensures Live(Settle(k, Acked))
  {
    SettleKeeps(k, Acked);
    SettleSlices(k, Acked);
    SettleFlows(k);
    hide Core, Flow, Closed, Linked, AllOk;
  }

  lemma SettleRest(k: Book, status: Status)
    requires Core(k) && k.rest != []
    ensures Settle(k, status).rest == k.rest[1..]
  {
    assert SliceOk(k, k.rest[0]) && BufOk(k, k.rest[0].buf);
  }

  lemma LiveParts(k: Book)
    requires Live(k)
    ensures Core(k) && Flow(k) && Closed(k.bufs, k.building) && Closed(k.bufs, k.rest)
  {
  }

  lemma AckStep(first: Book, k: Book)
    requires Live(k) && k.rest != [] && Along(first, k, Acked)
    ensures Live(Settle(k, Acked)) && Along(first, Settle(k, Acked), Acked)
    ensures Tail(Settle(k, Acked).bufs) == Tail(k.bufs)
    ensures Concat(Settle(k, Acked).bufs) == Concat(k.bufs)
    ensures Settle(k, Acked).rest == k.rest[1..]
  {
    hide *;
    LiveParts(k);
    SettleLives(k);
    SettleFlows(k);
    SettleRest(k, Acked);
    SettleGrows(k, Acked);
    AlongOn(first, k, Settle(k, Acked), Acked);
  }

  lemma CancelStep(first: Book, k: Book)
    requires Dying(k) && k.rest != [] && Along(first, k, Canceled)
    ensures Dying(Settle(k, Canceled)) && Along(first, Settle(k, Canceled), Canceled)
  {
    SettleKeeps(k, Canceled);
    SettleGrows(k, Canceled);
    AlongOn(first, k, Settle(k, Canceled), Canceled);
  }

  lemma AlongSelf(k: Book, status: Status)
    ensures Along(k, k, status)
  {
  }

  lemma PacketBegins(k: Book, n: nat, status: Status)
    requires Core(k) && n in k.held && k.rest == []
    ensures n < |k.packets| && Take(k, n).bufs == k.bufs && Take(k, n).rest == k.packets[n]
    ensures Dying(Take(k, n)) && Along(k, Take(k, n), status)
    ensures Live(k) ==> Live(Take(k, n))
  {
    TakeKeeps(k, n);
    if Live(k) {
      TakeFlows(k, n);
    }
  }

  lemma BuildingDies(k: Book, status: Status)
    requires Core(k) && Closed(k.bufs, k.building) && k.rest == []
    ensures Dying(TakeBuilding(k)) && Along(k, TakeBuilding(k), status)
  {
    TakeBuildingKeeps(k);
  }

  /** The buffer at the head of the write queue is about to be cancelled: all of it that is not settled. */
  function TakeHead(k: Book): Book {
    if k.head < |k.bufs| && k.bufs[k.head].acked <= |k.bufs[k.head].data| then
      var b := k.bufs[k.head];
      k.(head := k.head + 1, rest := [Slice(k.head, b.acked, |b.data| - b.acked)])
    else k
  }

  lemma HeadDies(k: Book, status: Status)
    requires Core(k) && k.head < |k.bufs| && k.held == {} && k.building == [] && k.rest == []
    ensures k.bufs[k.head].acked <= |k.bufs[k.head].data|
    ensures Dying(TakeHead(k)) && Along(k, TakeHead(k), status)
  {
    var b := k.bufs[k.head];
    assert BufOk(k, k.head);
    PacketsNone(k.packets, k.head, false);
    var s := Slice(k.head, b.acked, |b.data| - b.acked);
    CutKeeps(k, s, false);
    var after := Cutting(k, s, false);
    TakeBuildingKeeps(after);
    assert TakeBuilding(after) == TakeHead(k);
    assert Shifted(after, TakeHead(k));
    assert after.building == TakeHead(k).rest;
  }

  /** The next slice: as much of the buffer at the head as fits. */
  function NextSlice(k: Book, capacity: nat): Slice {
    if k.head < |k.bufs| && Cut(k.bufs[k.head]) <= |k.bufs[k.head].data| then
      var left := |k.bufs[k.head].data| - Cut(k.bufs[k.head]);
      Slice(k.head, Cut(k.bufs[k.head]), if capacity < left then capacity else left)
    else Slice(0, 0, 0)
  }

  lemma NextFits(k: Book, capacity: nat)
    requires Core(k) && Flow(k) && k.head < |k.bufs| && capacity > 0
    ensures Cut(k.bufs[k.head]) <= |k.bufs[k.head].data|
    ensures CanCut(k, NextSlice(k, capacity))
    ensures BytesOf(NextSlice(k, capacity), k.bufs)
            == k.bufs[k.head].data[Cut(k.bufs[k.head])..Cut(k.bufs[k.head]) + NextSlice(k, capacity).len]
  {
    assert BufOk(k, k.head);
    assert k.bufs[k.head].inflight == Out(k, k.head, false);
  }

  /** What one turn of the filling loop does. */
  function Filled(k: Book, capacity: nat): Book {
    var s := NextSlice(k, capacity);
    if k.head < |k.bufs| then
      k.(bufs := k.bufs[k.head := Advance(k.bufs[k.head], s.len)],
         building := k.building + [s],
         head := if Cut(k.bufs[k.head]) + s.len == |k.bufs[k.head].data| then k.head + 1 else k.head)
    else k
  }

  lemma FilledIsCut(k: Book, capacity: nat)
    requires Core(k) && Flow(k) && k.head < |k.bufs| && capacity > 0
    ensures Filled(k, capacity) == Cutting(k, NextSlice(k, capacity), true)
  {
    NextFits(k, capacity);
    assert k.bufs[k.head].inflight == Out(k, k.head, false);
  }

  lemma FillStep(k: Book, capacity: nat)
    requires Core(k) && Flow(k) && Open(k, k.building) && k.head < |k.bufs| && capacity > 0
    ensures var after := Filled(k, capacity);
            var piece := BytesOf(NextSlice(k, capacity), k.bufs);
            && Core(after) && Flow(after) && Open(after, after.building)
            && Tail(k.bufs) == piece + Tail(after.bufs)
            && Payload(after.building, after.bufs) == Payload(k.building, k.bufs) + piece
            && Concat(after.bufs) == Concat(k.bufs)
            && |piece| == NextSlice(k, capacity).len
  {
    var s := NextSlice(k, capacity);
    hide *;
    NextFits(k, capacity);
    FilledIsCut(k, capacity);
    SliceAt(k, capacity);
    CutKeeps(k, s, true);
    CutFlows(k, s);
    CutPayload(k, s);
    CutSame(k, s);
    BuildingFrame(Cutting(k, s, true), k.bufs);
  }

  lemma SliceAt(k: Book, capacity: nat)
    requires Core(k) && Flow(k) && k.head < |k.bufs| && capacity > 0
    ensures NextSlice(k, capacity).off == Cut(k.bufs[k.head])
    ensures |BytesOf(NextSlice(k, capacity), k.bufs)| == NextSlice(k, capacity).len
  {
    NextFits(k, capacity);
  }

  lemma CutSame(k: Book, s: Slice)
    requires Core(k) && CanCut(k, s)
    ensures SameData(Cutting(k, s, true).bufs, k.bufs)
  {
  }

  lemma BuildingFrame(k: Book, bufs: seq<Buf>)
    requires Core(k) && SameData(k.bufs, bufs)
    ensures Payload(k.building, bufs) == Payload(k.building, k.bufs)
  {
    assert forall i :: 0 <= i < |k.building| ==> SliceOk(k, k.building[i]);
    PayloadFrame(k.building, k.bufs, bufs);
  }

  lemma LaunchLives(k: Book)
    requires Live(k) && k.rest == []
    ensures Live(Launch(k)) && Launch(k).bufs == k.bufs
  {
    LaunchKeeps(k);
    LaunchFlows(k);
  }

  lemma StartLives(k: Book)
    requires Live(k) && k.rest == []
    ensures Live(Start(k)) && Untouched(Start(k)) && Start(k).bufs == k.bufs
  {
    StartKeeps(k);
    StartFlows(k);
  }

  lemma EnqueueLives(k: Book, d: seq<Byte>)
    requires Live(k) && k.rest == [] && Untouched(k)
    ensures Live(Enqueue(k, d)) && Untouched(Enqueue(k, d)) && k.writes != []
    ensures Tail(Enqueue(k, d).bufs) == Tail(k.bufs) + d && Concat(Enqueue(k, d).bufs) == Concat(k.bufs) + d
    ensures SameData(k.bufs, Enqueue(k, d).bufs)
  {
    EnqueueKeeps(k, d);
    EnqueueFlows(k, d);
  }
}
