/** Sums over write buffers and over the slices that packets take from them: the arithmetic under module Books. */
module WriteSums {
  import opened Receive
  import opened Wrappers

  /** `udx_stream_write_buf_t`: a buffer, the number of its write request and its two counters. */
  datatype Buf = Buf(data: seq<Byte>, write: nat, inflight: nat, acked: nat)

  /** One entry of a packet's `bufs` and `wbufs`: `len` bytes from `off` on in write buffer `buf`. */
  datatype Slice = Slice(buf: nat, off: nat, len: nat)

  // ---------- what slices take from a buffer ----------

  /** What a slice counts for. In units an empty slice counts one, so that it is not lost from the sum. */
  function Weight(s: Slice, unit: bool): nat {
    if unit && s.len == 0 then 1 else s.len
  }

  /** What the slices take from buffer `b`. */
  function Amount(slices: seq<Slice>, b: nat, unit: bool): nat {
    if slices == [] then 0
    else Amount(slices[..|slices| - 1], b, unit) + if slices[|slices| - 1].buf == b then Weight(slices[|slices| - 1], unit) else 0
  }

  lemma AmountMore(slices: seq<Slice>, s: Slice, b: nat, unit: bool)
    ensures Amount(slices + [s], b, unit) == Amount(slices, b, unit) + if s.buf == b then Weight(s, unit) else 0
  {
    assert (slices + [s])[..|slices|] == slices;
  }

  lemma {:induction false} AmountJoin(a: seq<Slice>, c: seq<Slice>, b: nat, unit: bool)
    ensures Amount(a + c, b, unit) == Amount(a, b, unit) + Amount(c, b, unit)
    decreases |c|
  {
    if c == [] {
      assert a + c == a;
    } else {
      var m := |c| - 1;
      AmountJoin(a, c[..m], b, unit);
      assert (a + c)[..|a + c| - 1] == a + c[..m];
    }
  }

  lemma AmountRest(slices: seq<Slice>, b: nat, unit: bool)
    requires slices != []
    ensures Amount(slices, b, unit) == Amount(slices[1..], b, unit) + if slices[0].buf == b then Weight(slices[0], unit) else 0
  {
    AmountJoin([slices[0]], slices[1..], b, unit);
    assert [slices[0]] + slices[1..] == slices;
    AmountMore([], slices[0], b, unit);
    assert [] + [slices[0]] == [slices[0]];
  }

  lemma AmountAt(slices: seq<Slice>, i: nat, unit: bool)
    requires i < |slices|
    ensures Amount(slices, slices[i].buf, unit) >= Weight(slices[i], unit)
  {
    AmountJoin(slices[..i], slices[i..], slices[i].buf, unit);
    assert slices[..i] + slices[i..] == slices;
    AmountRest(slices[i..], slices[i].buf, unit);
  }

  /** What the packets in `s` take from buffer `b`. */
  function InPackets(packets: seq<seq<Slice>>, s: set<nat>, b: nat, unit: bool): nat {
    if packets == [] then 0
    else
      var m := |packets| - 1;
      InPackets(packets[..m], s, b, unit) + if m in s then Amount(packets[m], b, unit) else 0
  }

  lemma PacketsMore(packets: seq<seq<Slice>>, p: seq<Slice>, s: set<nat>, b: nat, unit: bool)
    ensures InPackets(packets + [p], s + {|packets|}, b, unit) == InPackets(packets, s, b, unit) + Amount(p, b, unit)
  {
    assert (packets + [p])[..|packets|] == packets;
    PacketsFrame(packets, s, s + {|packets|}, b, unit);
  }

  lemma {:induction false} PacketsFrame(packets: seq<seq<Slice>>, s: set<nat>, t: set<nat>, b: nat, unit: bool)
    requires forall n :: 0 <= n < |packets| ==> (n in s <==> n in t)
    ensures InPackets(packets, s, b, unit) == InPackets(packets, t, b, unit)
    decreases |packets|
  {
    if packets != [] {
      PacketsFrame(packets[..|packets| - 1], s, t, b, unit);
    }
  }

  lemma {:induction false} PacketsLess(packets: seq<seq<Slice>>, s: set<nat>, n: nat, b: nat, unit: bool)
    requires n in s && n < |packets|
    ensures InPackets(packets, s - {n}, b, unit) == InPackets(packets, s, b, unit) - Amount(packets[n], b, unit)
    decreases |packets|
  {
    var m := |packets| - 1;
    if n == m {
      PacketsFrame(packets[..m], s, s - {n}, b, unit);
    } else {
      PacketsLess(packets[..m], s, n, b, unit);
    }
  }

  lemma {:induction false} PacketsNone(packets: seq<seq<Slice>>, b: nat, unit: bool)
    ensures InPackets(packets, {}, b, unit) == 0
    decreases |packets|
  {
    if packets != [] {
      PacketsNone(packets[..|packets| - 1], b, unit);
    }
  }

  /** The slices of all packets, in sequence order. */
  function Flatten(packets: seq<seq<Slice>>): seq<Slice> {
    if packets == [] then [] else Flatten(packets[..|packets| - 1]) + packets[|packets| - 1]
  }

  // ---------- counters ----------

  datatype Part = Size | Sliced | Settled

  function Measure(b: Buf, q: Part): nat {
    match q
    case Size => |b.data|
    case Sliced => b.acked + b.inflight
    case Settled => b.acked
  }

  /** Whether the buffer counts for write `w`, or at all. */
  predicate Of(b: Buf, w: Option<nat>) {
    w == None || w == Some(b.write)
  }

  /** A counter summed over the buffers of write `w`, or over all of them. */
  function Total(bufs: seq<Buf>, w: Option<nat>, q: Part): nat {
    if bufs == [] then 0
    else Total(bufs[..|bufs| - 1], w, q) + if Of(bufs[|bufs| - 1], w) then Measure(bufs[|bufs| - 1], q) else 0
  }

  lemma TotalMore(bufs: seq<Buf>, b: Buf, w: Option<nat>, q: Part)
    ensures Total(bufs + [b], w, q) == Total(bufs, w, q) + if Of(b, w) then Measure(b, q) else 0
  {
    assert (bufs + [b])[..|bufs|] == bufs;
  }

  lemma {:induction false} TotalSet(bufs: seq<Buf>, i: nat, b: Buf, w: Option<nat>, q: Part)
    requires i < |bufs| && b.write == bufs[i].write
    ensures Total(bufs[i := b], w, q) == Total(bufs, w, q) + if Of(b, w) then Measure(b, q) - Measure(bufs[i], q) else 0
    decreases |bufs|
  {
    var m := |bufs| - 1;
    if i == m {
      assert bufs[i := b][..m] == bufs[..m];
    } else {
      TotalSet(bufs[..m], i, b, w, q);
      assert bufs[i := b][..m] == bufs[..m][i := b];
    }
  }

  /** A counter that is nowhere above another one sums to the same only if it is the same everywhere. */
  lemma {:induction false} TotalBelow(bufs: seq<Buf>, w: Option<nat>, p: Part, q: Part)
    requires forall b :: 0 <= b < |bufs| ==> Measure(bufs[b], p) <= Measure(bufs[b], q)
    ensures Total(bufs, w, p) <= Total(bufs, w, q)
    ensures Total(bufs, w, p) == Total(bufs, w, q) <==>
            forall b :: 0 <= b < |bufs| && Of(bufs[b], w) ==> Measure(bufs[b], p) == Measure(bufs[b], q)
    decreases |bufs|
  {
    if bufs != [] {
      var m := |bufs| - 1;
      TotalBelow(bufs[..m], w, p, q);
      assert forall b :: 0 <= b < m ==> bufs[..m][b] == bufs[b];
      if Total(bufs, w, p) == Total(bufs, w, q) {
        forall b | 0 <= b < |bufs| && Of(bufs[b], w)
          ensures Measure(bufs[b], p) == Measure(bufs[b], q)
        {
          if b < m {
            assert Of(bufs[..m][b], w);
          }
        }
      }
    }
  }

  // ---------- bytes ----------

  function BytesOf(s: Slice, bufs: seq<Buf>): seq<Byte> {
    if s.buf < |bufs| && s.off + s.len <= |bufs[s.buf].data| then bufs[s.buf].data[s.off..s.off + s.len] else []
  }

  /** The bytes of the slices, in order. */
  function Payload(slices: seq<Slice>, bufs: seq<Buf>): seq<Byte> {
    if slices == [] then [] else Payload(slices[..|slices| - 1], bufs) + BytesOf(slices[|slices| - 1], bufs)
  }

  lemma PayloadMore(slices: seq<Slice>, s: Slice, bufs: seq<Buf>)
    ensures Payload(slices + [s], bufs) == Payload(slices, bufs) + BytesOf(s, bufs)
  {
    assert (slices + [s])[..|slices|] == slices;
  }

  lemma Associates(a: seq<Byte>, b: seq<Byte>, c: seq<Byte>)
    ensures (a + b) + c == a + (b + c)
  {
  }

  lemma {:induction false} PayloadJoin(a: seq<Slice>, b: seq<Slice>, bufs: seq<Buf>)
    ensures Payload(a + b, bufs) == Payload(a, bufs) + Payload(b, bufs)
    decreases |b|
  {
    if b == [] {
      assert a + b == a;
    } else {
      var m := |b| - 1;
      PayloadJoin(a, b[..m], bufs);
      assert (a + b)[..|a + b| - 1] == a + b[..m] && (a + b)[|a + b| - 1] == b[m];
      hide BytesOf;
      Associates(Payload(a, bufs), Payload(b[..m], bufs), BytesOf(b[m], bufs));
    }
  }

  /** The bytes of the buffers do not change, and later buffers do not matter. */
  ghost predicate SameData(bufs: seq<Buf>, more: seq<Buf>) {
    && |bufs| <= |more|
    && forall b :: 0 <= b < |bufs| ==> bufs[b].data == more[b].data && bufs[b].write == more[b].write
  }

  lemma {:induction false} PayloadFrame(slices: seq<Slice>, bufs: seq<Buf>, more: seq<Buf>)
    requires forall i :: 0 <= i < |slices| ==> slices[i].buf < |bufs|
    requires SameData(bufs, more)
    ensures Payload(slices, more) == Payload(slices, bufs)
    decreases |slices|
  {
    if slices != [] {
      PayloadFrame(slices[..|slices| - 1], bufs, more);
    }
  }

  function Concat(bufs: seq<Buf>): seq<Byte> {
    if bufs == [] then [] else Concat(bufs[..|bufs| - 1]) + bufs[|bufs| - 1].data
  }

  function Cut(b: Buf): nat {
    b.acked + b.inflight
  }

  function FrontOf(b: Buf): seq<Byte> {
    if Cut(b) <= |b.data| then b.data[..Cut(b)] else b.data
  }

  function TailOf(b: Buf): seq<Byte> {
    if Cut(b) <= |b.data| then b.data[Cut(b)..] else []
  }

  /** The part of each buffer that has been sliced: its first `bytes_acked + bytes_inflight` bytes. */
  function Front(bufs: seq<Buf>): seq<Byte> {
    if bufs == [] then [] else Front(bufs[..|bufs| - 1]) + FrontOf(bufs[|bufs| - 1])
  }

  /** The rest of each buffer. */
  function Tail(bufs: seq<Buf>): seq<Byte> {
    if bufs == [] then [] else Tail(bufs[..|bufs| - 1]) + TailOf(bufs[|bufs| - 1])
  }

  /** Buffers are sliced front to back: those before `head` wholly, those behind it not at all. */
  ghost predicate InOrder(bufs: seq<Buf>, head: nat) {
    && head <= |bufs|
    && (forall b :: 0 <= b < |bufs| ==> Cut(bufs[b]) <= |bufs[b].data|)
    && (forall b :: 0 <= b < head ==> Cut(bufs[b]) == |bufs[b].data|)
    && (forall b :: head < b < |bufs| ==> Cut(bufs[b]) == 0)
  }

  /** What has been sliced, and then what has not, is everything written. */
  lemma {:induction false} FrontTail(bufs: seq<Buf>, head: nat)
    requires InOrder(bufs, head)
    ensures Front(bufs) + Tail(bufs) == Concat(bufs)
    decreases |bufs|
  {
    if bufs != [] {
      var m := |bufs| - 1;
      if head > m {
        AllFront(bufs);
      } else if head == m {
        AllFront(bufs[..m]);
        Halves(bufs[m].data, Cut(bufs[m]), 0);
        Associates(Concat(bufs[..m]), FrontOf(bufs[m]), TailOf(bufs[m]));
        assert Tail(bufs) == TailOf(bufs[m]);
        assert FrontOf(bufs[m]) + TailOf(bufs[m]) == bufs[m].data;
      } else {
        FrontTail(bufs[..m], head);
        assert FrontOf(bufs[m]) == [] && TailOf(bufs[m]) == bufs[m].data;
        assert Front(bufs) == Front(bufs[..m]);
        Associates(Front(bufs[..m]), Tail(bufs[..m]), bufs[m].data);
      }
    }
  }

  lemma {:induction false} AllFront(bufs: seq<Buf>)
    requires forall b :: 0 <= b < |bufs| ==> Cut(bufs[b]) == |bufs[b].data|
    ensures Front(bufs) == Concat(bufs) && Tail(bufs) == []
    decreases |bufs|
  {
    if bufs != [] {
      var m := |bufs| - 1;
      AllFront(bufs[..m]);
      assert FrontOf(bufs[m]) == bufs[m].data && TailOf(bufs[m]) == [];
    }
  }

  lemma {:induction false} NoFront(bufs: seq<Buf>)
    requires forall b :: 0 <= b < |bufs| ==> Cut(bufs[b]) == 0
    ensures Front(bufs) == [] && Tail(bufs) == Concat(bufs)
    decreases |bufs|
  {
    if bufs != [] {
      NoFront(bufs[..|bufs| - 1]);
      assert FrontOf(bufs[|bufs| - 1]) == [] && TailOf(bufs[|bufs| - 1]) == bufs[|bufs| - 1].data;
    }
  }

  lemma Halves(s: seq<Byte>, k: nat, len: nat)
    requires k + len <= |s|
    ensures s[..k + len] == s[..k] + s[k..k + len]
    ensures s[k..] == s[k..k + len] + s[k + len..]
    ensures s[..k] + s[k..] == s
  {
  }

  lemma {:induction false} BytesJoin(a: seq<Buf>, b: seq<Buf>)
    ensures Front(a + b) == Front(a) + Front(b)
    ensures Tail(a + b) == Tail(a) + Tail(b)
    ensures Concat(a + b) == Concat(a) + Concat(b)
    decreases |b|
  {
    if b == [] {
      assert a + b == a;
    } else {
      var m := |b| - 1;
      BytesJoin(a, b[..m]);
      assert (a + b)[..|a + b| - 1] == a + b[..m] && (a + b)[|a + b| - 1] == b[m];
      hide FrontOf, TailOf;
      Associates(Front(a), Front(b[..m]), FrontOf(b[m]));
      Associates(Tail(a), Tail(b[..m]), TailOf(b[m]));
      Associates(Concat(a), Concat(b[..m]), b[m].data);
    }
  }

  /** The counters of one buffer changed by moving bytes between them, or by a slice that has been taken. */
  lemma {:induction false} BytesSet(bufs: seq<Buf>, i: nat, b: Buf)
    requires i < |bufs| && b.data == bufs[i].data
    ensures Concat(bufs[i := b]) == Concat(bufs)
    ensures Cut(b) == Cut(bufs[i]) ==> Front(bufs[i := b]) == Front(bufs) && Tail(bufs[i := b]) == Tail(bufs)
    decreases |bufs|
  {
    var m := |bufs| - 1;
    if i == m {
      assert bufs[i := b][..m] == bufs[..m];
    } else {
      BytesSet(bufs[..m], i, b);
      assert bufs[i := b][..m] == bufs[..m][i := b];
    }
  }

  /** The buffer after a slice of `len` bytes has been taken from it. */
  function Advance(b: Buf, len: nat): Buf {
    b.(inflight := b.inflight + len)
  }

  function Piece(b: Buf, len: nat): seq<Byte> {
    if Cut(b) + len <= |b.data| then b.data[Cut(b)..Cut(b) + len] else []
  }

  /** A slice off the head of the unsent bytes moves from the tail to the front. */
  lemma SliceMoves(bufs: seq<Buf>, head: nat, len: nat)
    requires InOrder(bufs, head) && head < |bufs| && Cut(bufs[head]) + len <= |bufs[head].data|
    ensures Front(bufs[head := Advance(bufs[head], len)]) == Front(bufs) + Piece(bufs[head], len)
    ensures Tail(bufs) == Piece(bufs[head], len) + Tail(bufs[head := Advance(bufs[head], len)])
    ensures Concat(bufs[head := Advance(bufs[head], len)]) == Concat(bufs)
  {
    hide *;
    var b := bufs[head];
    Around(bufs, head, b);
    Around(bufs, head, Advance(b, len));
    assert bufs[head := b] == bufs;
    HeadMoves(b, len);
    BytesSet(bufs, head, Advance(b, len));
    MoveOver(Front(bufs[..head]), FrontOf(b), Piece(b, len), TailOf(Advance(b, len)), Tail(bufs[head + 1..]));
  }

  lemma HeadMoves(b: Buf, len: nat)
    requires Cut(b) + len <= |b.data|
    ensures FrontOf(Advance(b, len)) == FrontOf(b) + Piece(b, len)
    ensures TailOf(b) == Piece(b, len) + TailOf(Advance(b, len))
    ensures Advance(b, len).data == b.data
  {
    Halves(b.data, Cut(b), len);
  }

  lemma Around(bufs: seq<Buf>, head: nat, b: Buf)
    requires InOrder(bufs, head) && head < |bufs|
    ensures Front(bufs[head := b]) == Front(bufs[..head]) + FrontOf(b)
    ensures Tail(bufs[head := b]) == TailOf(b) + Tail(bufs[head + 1..])
  {
    AllFront(bufs[..head]);
    NoFront(bufs[head + 1..]);
    OneBetween(bufs[..head], b, bufs[head + 1..]);
    assert bufs[..head] + [b] + bufs[head + 1..] == bufs[head := b];
  }

  lemma OneBetween(pre: seq<Buf>, b: Buf, post: seq<Buf>)
    requires Front(post) == [] && Tail(pre) == []
    ensures Front(pre + [b] + post) == Front(pre) + FrontOf(b)
    ensures Tail(pre + [b] + post) == TailOf(b) + Tail(post)
  {
    hide FrontOf, TailOf;
    BytesJoin(pre + [b], post);
    BytesJoin(pre, [b]);
    assert [b][..0] == [];
    assert Front([b]) == FrontOf(b) && Tail([b]) == TailOf(b);
  }

  lemma MoveOver(f: seq<Byte>, x: seq<Byte>, piece: seq<Byte>, y: seq<Byte>, t: seq<Byte>)
    ensures f + (x + piece) == (f + x) + piece
    ensures (piece + y) + t == piece + (y + t)
  {
  }
}
