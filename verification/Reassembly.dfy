/** The receiving half of a stream in src/udx.c over real sack blocks: `process_data_packet`, the drain of
    `process_packet` and the SACK list of `send_ack`, each proved to compute what module Receive says. */
module Reassembly {
  import opened SeqArith
  import opened Receive
  import opened Wrappers
  import opened SackLinks
  import opened SackTree
  import opened SackStore

  lemma MergedAt(st: Store, b: Block, c: Block)
    ensures var t := st.Merged(b, c);
            && t.blocks == st.blocks - {c} && t.key == st.key && t.Stop(b) == st.Stop(c) && t.Packs(b) == st.Packs(b) + st.Packs(c)
            && forall a :: a != b ==> t.Stop(a) == st.Stop(a) && t.Packs(a) == st.Packs(a)
  {
  }

  lemma OpenedAt(st: Store, b: Block, k: int)
    ensures var t := st.Opened(b, k);
            && t.blocks == st.blocks + {b} && t.key == st.key[b := k] && t.Stop(b) == k && t.Packs(b) == []
            && forall a :: a != b ==> t.Stop(a) == st.Stop(a) && t.Packs(a) == st.Packs(a)
  {
  }

  /** The fields of `udx_stream_t` that receive. */
  class Reader {
    const tree: Tree
    var ack: uint32
    var read: seq<Byte>
    var endingRemote: bool
    var endedRemote: bool
    var remoteEnded: uint32
    /** The sack blocks as values. */
    ghost var st: Store

    /** `st` is what the tree and its blocks hold. */
    ghost predicate Mirrors()
      reads this`st, tree`h, tree.h.nodes`end, tree.h.nodes`packets
    {
      && st.blocks == tree.h.nodes && st.key == tree.h.key
      && forall b :: b in st.blocks ==> b.end == U32(st.Stop(b)) && b.packets == st.Packs(b)
    }

    ghost predicate Kept()
      reads this`st, tree, tree.h.nodes, tree.sentinel`parent, tree.sentinel`red
    {
      tree.Valid() && Mirrors()
    }

    constructor (irs: uint32)
      ensures Kept() && fresh(tree) && fresh(tree.sentinel) && tree.h.nodes == {}
      ensures Valid(Receiver(irs, 0, map[], [], false, false, 0))
    {
      tree := new Tree();
      ack, read, endingRemote, endedRemote, remoteEnded := irs, [], false, false, 0;
      st := Store(irs, {}, map[], map[], map[]);
    }

    lemma StartOf(b: Block)
      requires Kept() && b in st.blocks
      ensures b in tree.h.key && tree.h.key[b] == st.Key(b) && b.start == U32(st.Key(b))
    {
    }

    // ---------- the out-of-order path of process_data_packet ----------

    /** The ends of the blocks, for the search. */
    ghost function Stops(): map<Block, int>
      reads this`st
    {
      map b | b in st.blocks :: st.Stop(b)
    }

    lemma InBounds(n: Block, held: map<nat, Seg>, lo: int, top: int)
      requires Kept() && st.Full(null, held, lo, top) && n in st.blocks
      ensures n in tree.h.key && tree.h.key[n] == st.Key(n) && n.start == U32(st.Key(n))
      ensures lo <= st.Key(n) < st.Stop(n) <= top && n.end == U32(st.Stop(n)) && n in Stops() && Stops()[n] == st.Stop(n)
    {
      StartOf(n);
    }

    lemma SpansReady(held: map<nat, Seg>, lo: int, top: int)
      requires Kept() && st.Full(null, held, lo, top)
      ensures tree.Spans(Stops())
    {
      forall n | n in tree.h.nodes
        ensures n in Stops() && n in tree.h.key && tree.h.key[n] <= Stops()[n] && n.end == U32(Stops()[n])
      {
        InBounds(n, held, lo, top);
      }
      forall n, m | n in tree.h.nodes && m in tree.h.nodes && tree.h.key[n] < tree.h.key[m]
        ensures Stops()[n] <= tree.h.key[m]
      {
        assert st.Apart(n, m, null);
      }
    }

    lemma SearchReady(k: int, held: map<nat, Seg>, lo: int, top: int)
      requires Kept() && st.Full(null, held, lo, top) && lo <= k <= top <= lo + TWO_31 && k < lo + TWO_31
      ensures tree.Spans(Stops())
      ensures forall n :: n in tree.Blocks() ==> n in Stops() && Near(k, tree.Start(n)) && Near(k, Stops()[n])
      ensures var r := Found(tree.tree, k, tree.h.key, Stops());
              if r != null then r in st.blocks && st.Key(r) <= k <= st.Stop(r) else st.Beside(k)
    {
      SpansReady(held, lo, top);
      forall n | n in tree.Blocks()
        ensures n in tree.h.key && tree.h.key[n] == st.Key(n) && n in Stops() && Stops()[n] == st.Stop(n) && lo <= st.Key(n) < st.Stop(n) <= top
      {
        InBounds(n, held, lo, top);
      }
      hide *;
      tree.FindsExactly(k, Stops());
      Answers(Found(tree.tree, k, tree.h.key, Stops()), k, held, lo, top);
    }

    lemma Answers(r: Block?, k: int, held: map<nat, Seg>, lo: int, top: int)
      requires Kept() && st.Full(null, held, lo, top) && lo <= k <= top <= lo + TWO_31 && k < lo + TWO_31
      requires forall n :: n in tree.Blocks() ==> n in tree.h.key && tree.h.key[n] == st.Key(n) && n in Stops() && Stops()[n] == st.Stop(n) && lo <= st.Key(n) < st.Stop(n) <= top
      requires r != null ==> r in tree.Blocks() && tree.Start(r) <= k <= Stops()[r]
      requires r == null ==> forall n :: n in tree.Blocks() ==> k < tree.Start(n) || Stops()[n] < k
      ensures forall n :: n in tree.Blocks() ==> n in Stops() && Near(k, tree.Start(n)) && Near(k, Stops()[n])
      ensures if r != null then r in st.blocks && st.Key(r) <= k <= st.Stop(r) else st.Beside(k)
    {
      assert tree.Blocks() == st.blocks;
    }

    /** The block that ends on number `k` or covers it. */
    method Lookup(seqno: uint32, ghost k: int, ghost held: map<nat, Seg>, ghost lo: int, ghost top: int) returns (block: Block?)
      requires Kept() && st.Full(null, held, lo, top) && lo <= k <= top <= lo + TWO_31 && k < lo + TWO_31 && seqno == U32(k)
      ensures block == null ==> st.Beside(k)
      ensures block != null ==> block in st.blocks && (if block.end == seqno then st.Stop(block) == k else st.Spans(block, k))
    {
      SearchReady(k, held, lo, top);
      block := tree.Find(seqno, k, Stops());
      if block != null {
        SeqCompareTrue(k, st.Stop(block));
      }
    }

    lemma Distinct(k: int, held: map<nat, Seg>, lo: int, top: int)
      requires Kept() && st.Full(null, held, lo, top) && st.Beside(k) && lo <= k < lo + TWO_31 && top <= lo + TWO_31
      ensures forall n :: n in tree.Blocks() ==> k != tree.Start(n) && Near(k, tree.Start(n))
    {
      forall n | n in st.blocks
        ensures k != st.Key(n) && Near(k, st.Key(n)) && n in tree.h.key && tree.h.key[n] == st.Key(n)
      {
        StartOf(n);
      }
    }

    /** A new block, empty yet, in the tree. */
    method Make(seqno: uint32, ghost k: int) returns (block: Block)
      requires Kept() && seqno == U32(k)
      requires forall n :: n in tree.Blocks() ==> k != tree.Start(n) && Near(k, tree.Start(n))
      modifies this`st, tree`root, tree`h, tree`tree, tree.sentinel`parent
      modifies tree.h.nodes`left, tree.h.nodes`right, tree.h.nodes`parent, tree.h.nodes`red
      ensures Kept() && fresh(block) && tree.h.nodes == old(tree.h.nodes) + {block}
      ensures block !in old(st).blocks && st == old(st).Opened(block, k)
    {
      hide Tree.Valid, U32, Near;
      block := new Block(seqno);
      Plant(block, k);
    }

    method Plant(block: Block, ghost k: int)
      requires Kept() && block !in tree.h.nodes && block != tree.sentinel && block.start == U32(k) && block.end == U32(k) && block.packets == []
      requires forall n :: n in tree.Blocks() ==> k != tree.Start(n) && Near(k, tree.Start(n))
      modifies this`st, tree`root, tree`h, tree`tree, tree.sentinel`parent, block`left, block`right, block`parent, block`red
      modifies tree.h.nodes`left, tree.h.nodes`right, tree.h.nodes`parent, tree.h.nodes`red
      ensures Kept() && tree.h.nodes == old(tree.h.nodes) + {block} && st == old(st).Opened(block, k)
    {
      OpenedAt(st, block, k);
      hide Tree.Valid, U32, Near, Store.Opened, Store.Stop, Store.Packs;
      tree.Insert(block, k);
      st := st.Opened(block, k);
    }

    /** A payload more at the end of `block`. */
    method AppendTo(block: Block, s: Seg)
      requires Kept() && block in st.blocks
      modifies this`st, block`packets, block`end
      ensures Kept() && st == old(st).Appended(block, s) && tree.h == old(tree.h)
    {
      hide Tree.Valid, U32;
      IncrementProjects(st.Stop(block));
      block.packets := block.packets + [s];
      block.end := U32(block.end + 1);
      st := st.Appended(block, s);
    }

    /** The block after `block`, if it begins right where `block` stops; its queue is not empty then. */
    method Adjacent(block: Block, ghost held: map<nat, Seg>, ghost lo: int, ghost top: int) returns (next: Block?)
      requires Kept() && st.Full(block, held, lo, top) && top <= lo + TWO_31 && block in st.blocks
      ensures next == null ==> forall n :: n in st.blocks ==> st.Key(n) != st.Stop(block)
      ensures next != null ==> next in st.blocks && next != block && st.Key(next) == st.Stop(block) && next.packets != []
    {
      next := tree.Next(block);
      forall n | n in st.blocks
        ensures n in tree.Blocks() && tree.Start(n) == st.Key(n) && n.start == U32(st.Key(n))
      {
        StartOf(n);
      }
      NextDecides(block, next, held, lo, top);
      if next != null {
        ProjectionInjective(st.Stop(block), st.Key(next));
        if next.start != block.end {
          next := null;
        }
      }
    }

    /** What the block after `block` tells: whether any begins where `block` stops. */
    lemma NextDecides(block: Block, next: Block?, held: map<nat, Seg>, lo: int, top: int)
      requires st.Full(block, held, lo, top) && block in st.blocks
      requires next == null ==> forall n :: n in st.blocks ==> st.Key(n) <= st.Key(block)
      requires next != null ==> next in st.blocks && st.Key(block) < st.Key(next)
      requires next != null ==> forall n :: n in st.blocks ==> st.Key(n) <= st.Key(block) || st.Key(next) <= st.Key(n)
      ensures (next == null || st.Key(next) != st.Stop(block)) ==> forall n :: n in st.blocks ==> st.Key(n) != st.Stop(block)
      ensures next != null ==> next != block && lo <= st.Key(next) <= top && lo <= st.Stop(block) <= top && st.Packs(next) != []
    {
      if next != null {
        assert st.Apart(block, next, block);
      }
    }

    /** `next` leaves the tree and its packets follow those of `block`. */
    method Swallow(block: Block, next: Block)
      requires Kept() && block in st.blocks && next in st.blocks && block != next
      modifies this`st, tree`root, tree`h, tree`tree, tree.sentinel`parent, tree.sentinel`red, block`end, block`packets
      modifies tree.h.nodes`left, tree.h.nodes`right, tree.h.nodes`parent, tree.h.nodes`red
      ensures Kept() && st == old(st).Merged(block, next) && tree.h.nodes <= old(tree.h.nodes)
    {
      hide Tree.Valid, U32;
      tree.Remove(next);
      TakePackets(block, next);
    }

    method TakePackets(block: Block, next: Block)
      requires tree.Valid() && block in tree.h.nodes && next !in tree.h.nodes && st.blocks == tree.h.nodes + {next} && st.key == tree.h.key
      requires forall b :: b in st.blocks ==> b.end == U32(st.Stop(b)) && b.packets == st.Packs(b)
      modifies this`st, block`end, block`packets
      ensures Kept() && st == old(st).Merged(block, next) && tree.h == old(tree.h)
    {
      hide Tree.Valid, U32;
      ghost var st0 := st;
      MergedAt(st0, block, next);
      hide Store.Merged, Store.Stop, Store.Packs;
      block.end := next.end;
      block.packets := block.packets + next.packets;
      st := st.Merged(block, next);
    }

    /** A block that has become adjacent to the next one takes it over. */
    method JoinNext(block: Block, ghost held: map<nat, Seg>, ghost lo: int, ghost top: int)
      requires Kept() && st.Full(block, held, lo, top) && top <= lo + TWO_31 && block in st.blocks
      modifies this`st, tree`root, tree`h, tree`tree, tree.sentinel`parent, tree.sentinel`red, block`end, block`packets
      modifies tree.h.nodes`left, tree.h.nodes`right, tree.h.nodes`parent, tree.h.nodes`red
      ensures Kept() && st.Full(null, held, lo, top) && st.base == old(st).base && tree.h.nodes <= old(tree.h.nodes)
    {
      hide *;
      var next := Adjacent(block, held, lo, top);
      if next != null {
        Merge(st, held, block, next, lo, top);
        Swallow(block, next);
      } else {
        NoMerge(st, held, block, lo, top);
      }
    }

    /** A payload appended in its place, and the block joined to the next one if they touch now. */
    method KeepAt(block: Block, s: Seg, ghost k: int, ghost held: map<nat, Seg>, ghost lo: int, ghost top: int)
      requires Kept() && st.Place(block, k) && st.Holds(held) && st.Bounded(lo, top) && st.base <= lo <= k < top <= lo + TWO_31
      requires block in st.blocks
      modifies this`st, tree`root, tree`h, tree`tree, tree.sentinel`parent, tree.sentinel`red, block`end, block`packets
      modifies tree.h.nodes`left, tree.h.nodes`right, tree.h.nodes`parent, tree.h.nodes`red
      ensures Kept() && st.base == old(st).base && tree.h.nodes <= old(tree.h.nodes)
      ensures !IsHeld(held, st.base, k) && st.Full(null, With(held, st.base, k, s), lo, top)
    {
      hide *;
      Append(st, held, block, k, s, lo, top);
      AppendTo(block, s);
      JoinNext(block, With(held, st.base, k, s), lo, top);
    }

    /** The slow path for a number in no block and at the end of none. */
    method KeepNew(seqno: uint32, s: Seg, ghost k: int, ghost held: map<nat, Seg>, ghost lo: int, ghost top: int)
      requires Kept() && st.Full(null, held, lo, top) && st.Beside(k) && st.base <= lo <= k < top <= lo + TWO_31 && seqno == U32(k)
      modifies this`st, tree`root, tree`h, tree`tree, tree.sentinel`parent, tree.sentinel`red
      modifies tree.h.nodes`left, tree.h.nodes`right, tree.h.nodes`parent, tree.h.nodes`red
      ensures Kept() && st.base == old(st).base && fresh(tree.h.nodes - old(tree.h.nodes))
      ensures !IsHeld(held, st.base, k) && st.Full(null, With(held, st.base, k, s), lo, top)
    {
      ghost var st0 := st;
      hide *;
      Distinct(k, held, lo, top);
      var block := Make(seqno, k);
      NewPlace(st0, held, block, k, lo, top);
      KeepNewIn(block, s, k, held, lo, top);
    }

    method KeepNewIn(block: Block, s: Seg, ghost k: int, ghost held: map<nat, Seg>, ghost lo: int, ghost top: int)
      requires Kept() && st.Place(block, k) && st.Holds(held) && st.Bounded(lo, top) && st.base <= lo <= k < top <= lo + TWO_31
      modifies this`st, tree`root, tree`h, tree`tree, tree.sentinel`parent, tree.sentinel`red, block`end, block`packets
      modifies tree.h.nodes`left, tree.h.nodes`right, tree.h.nodes`parent, tree.h.nodes`red
      ensures Kept() && st.base == old(st).base && tree.h.nodes <= old(tree.h.nodes)
      ensures !IsHeld(held, st.base, k) && st.Full(null, With(held, st.base, k, s), lo, top)
    {
      assert block in st.blocks;
      hide *;
      KeepAt(block, s, k, held, lo, top);
    }

    /** The slow path for a number at which a block stops. */
    method KeepOld(block: Block, s: Seg, ghost held: map<nat, Seg>, ghost lo: int, ghost top: int)
      requires Kept() && st.Full(null, held, lo, top) && block in st.blocks && lo <= st.Stop(block) < top <= lo + TWO_31
      modifies this`st, tree`root, tree`h, tree`tree, tree.sentinel`parent, tree.sentinel`red, block`end, block`packets
      modifies tree.h.nodes`left, tree.h.nodes`right, tree.h.nodes`parent, tree.h.nodes`red
      ensures Kept() && st.base == old(st).base && tree.h.nodes <= old(tree.h.nodes)
      ensures var k := old(st).Stop(block); !IsHeld(held, st.base, k) && st.Full(null, With(held, st.base, k, s), lo, top)
    {
      OldPlace(st, held, block, lo, top);
      assert st.Holds(held) && st.Bounded(lo, top) && st.base <= lo;
      hide *;
      KeepAt(block, s, st.Stop(block), held, lo, top);
    }

    /** The slow path of `process_data_packet`: afterwards number `k` is held, with `s` unless it already was. */
    method Keep(seqno: uint32, s: Seg, ghost k: int, ghost held: map<nat, Seg>, ghost lo: int, ghost top: int)
      requires Kept() && st.Full(null, held, lo, top) && st.base <= lo <= k < top <= lo + TWO_31 && seqno == U32(k)
      modifies this`st, tree`root, tree`h, tree`tree, tree.sentinel`parent, tree.sentinel`red, tree.h.nodes`end, tree.h.nodes`packets
      modifies tree.h.nodes`left, tree.h.nodes`right, tree.h.nodes`parent, tree.h.nodes`red
      ensures Kept() && st.base == old(st).base && fresh(tree.h.nodes - old(tree.h.nodes))
      ensures st.Full(null, if IsHeld(held, st.base, k) then held else With(held, st.base, k, s), lo, top)
    {
      assert st.blocks == tree.h.nodes;
      hide *;
      var block := Lookup(seqno, k, held, lo, top);
      if block == null {
        KeepNew(seqno, s, k, held, lo, top);
      } else if block.end == seqno {
        KeepOld(block, s, held, lo, top);
      } else {
        CoveredHeld(st, held, block, k, lo, top);
      }
    }

    /** All fields but the blocks show the receiver `r`. */
    ghost predicate Told(r: Receiver)
      reads this`ack, this`read, this`endingRemote, this`endedRemote, this`remoteEnded
    {
      && ack == U32(r.irs + r.ack) && read == r.read && endingRemote == r.endingRemote && endedRemote == r.endedRemote
      && (endingRemote ==> remoteEnded == U32(r.irs + r.remoteEnded))
    }

    /** The fields show the receiver `r`; its blocks begin `gap` numbers after `ack` at the earliest. */
    ghost predicate Shows(r: Receiver, gap: int)
      reads this
    {
      Told(r) && st.base == r.irs && st.Full(null, r.held, r.irs + r.ack + gap, r.irs + r.ack + TWO_31)
    }

    /** Between packets every block begins strictly after `ack`. */
    ghost predicate Valid(r: Receiver)
      reads this, tree, tree.h.nodes, tree.sentinel`parent, tree.sentinel`red
    {
      Kept() && Shows(r, 1)
    }

    // ---------- one packet ----------

    /** The fast path: the payload goes to the reader at once. */
    method Advance(data: seq<Byte>, ghost r: Receiver)
      requires Valid(r)
      modifies this`ack, this`read
      ensures Kept() && Shows(r.(ack := r.ack + 1, read := r.read + data), 0)
    {
      ghost var lo := r.irs + r.ack;
      IncrementProjects(lo);
      Widen(st, null, r.held, lo + 1, lo + TWO_31, lo + 1, lo + 1 + TWO_31);
      hide Reader.Kept, Store.Full, U32;
      ack := U32(ack + 1);
      read := read + data;
    }

    /** The slow path. */
    method PutAside(seqno: uint32, s: Seg, ghost n: nat, ghost r: Receiver)
      requires Valid(r) && r.ack <= n < r.ack + TWO_31 && seqno == U32(r.irs + n)
      modifies this`st, tree`root, tree`h, tree`tree, tree.sentinel`parent, tree.sentinel`red, tree.h.nodes`end, tree.h.nodes`packets
      modifies tree.h.nodes`left, tree.h.nodes`right, tree.h.nodes`parent, tree.h.nodes`red
      ensures Kept() && Shows(r.(held := if n in r.held then r.held else r.held[n := s]), 0) && fresh(tree.h.nodes - old(tree.h.nodes))
    {
      hide *;
      ghost var lo := r.irs + r.ack;
      ghost var aside := r.(held := if n in r.held then r.held else r.held[n := s]);
      AsideReady(n, s, r);
      Keep(seqno, s, r.irs + n, r.held, lo, lo + TWO_31);
      ShowsNow(aside, 0);
    }

    lemma AsideReady(n: nat, s: Seg, r: Receiver)
      requires Valid(r)
      ensures var lo := r.irs + r.ack; Kept() && st.Full(null, r.held, lo, lo + TWO_31) && st.base == r.irs <= lo
      ensures IsHeld(r.held, r.irs, r.irs + n) <==> n in r.held
      ensures With(r.held, r.irs, r.irs + n, s) == r.held[n := s]
      ensures Told(r.(held := if n in r.held then r.held else r.held[n := s]))
    {
      var lo := r.irs + r.ack;
      Widen(st, null, r.held, lo + 1, lo + TWO_31, lo, lo + TWO_31);
      HeldWith(r.held, r.irs, n, s);
    }

    lemma ShowsNow(r: Receiver, gap: int)
      requires Told(r) && st.base == r.irs && st.Full(null, r.held, r.irs + r.ack + gap, r.irs + r.ack + TWO_31)
      ensures Shows(r, gap)
    {
    }

    /** `process_data_packet` for number `n` with payload `s`. */
    method Accept(seqno: uint32, s: Seg, ghost n: nat, ghost r: Receiver)
      requires Valid(r) && r.ack <= n < r.ack + TWO_31 && seqno == U32(r.irs + n)
      modifies this, tree`root, tree`h, tree`tree, tree.sentinel`parent, tree.sentinel`red, tree.h.nodes`end, tree.h.nodes`packets
      modifies tree.h.nodes`left, tree.h.nodes`right, tree.h.nodes`parent, tree.h.nodes`red
      ensures Kept() && Shows(Receive.Accept(r, n, s), 0) && fresh(tree.h.nodes - old(tree.h.nodes))
    {
      assert ack == U32(r.irs + r.ack);
      hide Reader.Kept, Reader.Shows, U32;
      if seqno == ack && s.data != [] {
        Advance(s.data, r);
      } else {
        PutAside(seqno, s, n, r);
        assert r.(held := r.held) == r;
      }
    }

    // ---------- the drain ----------

    /** One waiting packet goes to the reader; END packets carry no bytes and only move `ack`. */
    method Deliver(p: Seg, ghost q: Receiver)
      requires Told(q)
      modifies this`ack, this`read
      ensures Told(Consume(q, p))
    {
      IncrementProjects(q.irs + q.ack);
      ack := U32(ack + 1);
      if p.data != [] {
        read := read + p.data;
      }
    }

    /** The packets of a block that has left the tree are shifted off its queue and delivered one by one. */
    method HandOver(block: Block, ghost rest: map<nat, Seg>, ghost r: Receiver) returns (ghost q: Receiver)
      requires Told(r) && !r.endedRemote && Waiting(r, rest, block.packets)
      modifies this`ack, this`read, block`packets
      ensures Told(q) && Receive.Drain(q) == Receive.Drain(r) && q.held == rest && q.irs == r.irs && !q.endedRemote
      ensures q.ack == r.ack + |old(block.packets)|
    {
      q := r;
      while |block.packets| > 0
        invariant Told(q) && Waiting(q, rest, block.packets) && Receive.Drain(q) == Receive.Drain(r)
        invariant q.irs == r.irs && !q.endedRemote && q.ack + |block.packets| == r.ack + |old(block.packets)|
        decreases |block.packets|
      {
        HandOne(q, rest, block.packets);
        var p := block.packets[0];
        block.packets := block.packets[1..];
        Deliver(p, q);
        q := Consume(q, p);
      }
      HandedAll(q, rest);
    }

    /** The first block leaves the tree. */
    method Eject(block: Block)
      requires Kept() && block in st.blocks
      modifies this`st, tree`root, tree`h, tree`tree, tree.sentinel`parent, tree.sentinel`red
      modifies tree.h.nodes`left, tree.h.nodes`right, tree.h.nodes`parent, tree.h.nodes`red
      ensures Kept() && st == old(st).Without(block) && tree.h.nodes == old(tree.h.nodes) - {block}
      ensures block.packets == old(st).Packs(block)
    {
      hide Tree.Valid, U32;
      tree.Remove(block);
      st := st.Without(block);
    }

    lemma Earliest(block: Block, held: map<nat, Seg>, lo: int, top: int)
      requires Kept() && st.Full(null, held, lo, top) && block in tree.Blocks()
      requires forall n :: n in tree.Blocks() ==> tree.Start(block) <= tree.Start(n)
      ensures block in st.blocks && block.start == U32(st.Key(block)) && lo <= st.Key(block) <= top
      ensures forall n :: n in st.blocks ==> st.Key(block) <= st.Key(n)
    {
      InBounds(block, held, lo, top);
      forall n | n in st.blocks
        ensures st.Key(block) <= st.Key(n)
      {
        InBounds(n, held, lo, top);
      }
    }

    lemma ShowsParts(r: Receiver, gap: int)
      requires Shows(r, gap)
      ensures Told(r) && ack == U32(r.irs + r.ack) && endedRemote == r.endedRemote && st.base == r.irs
      ensures st.Full(null, r.held, r.irs + r.ack + gap, r.irs + r.ack + TWO_31)
    {
    }

    lemma First(block: Block, r: Receiver)
      requires Kept() && Shows(r, 0) && block in tree.Blocks() && block.start == ack
      requires forall n :: n in tree.Blocks() ==> tree.Start(block) <= tree.Start(n)
      ensures st.Full(null, r.held, r.irs + r.ack, r.irs + r.ack + TWO_31) && st.base == r.irs
      ensures st.Key(block) == r.irs + r.ack && forall n :: n in st.blocks ==> st.Key(block) <= st.Key(n)
    {
      hide *;
      var lo, top := r.irs + r.ack, r.irs + r.ack + TWO_31;
      ShowsParts(r, 0);
      Earliest(block, r.held, lo, top);
      SameNumber(st.Key(block), lo);
    }

    lemma NotFirst(block: Block?, r: Receiver)
      requires Kept() && Shows(r, if r.endedRemote then 1 else 0)
      requires block == null ==> tree.Blocks() == {}
      requires block != null ==> block in tree.Blocks() && forall n :: n in tree.Blocks() ==> tree.Start(block) <= tree.Start(n)
      requires endedRemote || block == null || block.start != ack
      ensures Receive.Drain(r) == r && Shows(r, 1)
    {
      hide *;
      var lo, top := r.irs + r.ack, r.irs + r.ack + TWO_31;
      ShowsParts(r, if r.endedRemote then 1 else 0);
      if !r.endedRemote {
        NoneAt(block, r.held, lo, top);
        Raise(st, r.held, lo, top);
      }
      NothingBelow(st, r.held, lo + 1, top, r.ack);
      DrainIdle(r);
      ShowsNow(r, 1);
    }

    lemma NoneAt(block: Block?, held: map<nat, Seg>, lo: int, top: int)
      requires Kept() && st.Full(null, held, lo, top)
      requires block == null ==> tree.Blocks() == {}
      requires block != null ==> block in tree.Blocks() && forall n :: n in tree.Blocks() ==> tree.Start(block) <= tree.Start(n)
      requires block == null || block.start != U32(lo)
      ensures forall b :: b in st.blocks ==> st.Key(b) != lo
    {
      if block != null {
        Earliest(block, held, lo, top);
      }
    }

    /** The drain of `process_packet`: if the first block begins at `ack`, it is handed over. */
    method Drain(ghost r: Receiver)
      requires Kept() && Shows(r, if r.endedRemote then 1 else 0)
      modifies this, tree`root, tree`h, tree`tree, tree.sentinel`parent, tree.sentinel`red, tree.h.nodes`packets
      modifies tree.h.nodes`left, tree.h.nodes`right, tree.h.nodes`parent, tree.h.nodes`red
      ensures Valid(Receive.Drain(r)) && tree.h.nodes <= old(tree.h.nodes)
    {
      hide *;
      TreeValid();
      var block := tree.Min();
      if !endedRemote && block != null && block.start == ack {
        DrainBlock(block, r);
      } else {
        NotFirst(block, r);
        IsValid(Receive.Drain(r));
      }
    }

    lemma TreeValid()
      requires Kept()
      ensures tree.Valid() && st.blocks == tree.h.nodes
    {
    }

    lemma IsValid(r: Receiver)
      requires Kept() && Shows(r, 1)
      ensures Valid(r)
    {
    }

    method DrainBlock(block: Block, ghost r: Receiver)
      requires Kept() && Shows(r, if r.endedRemote then 1 else 0) && !endedRemote && block in tree.Blocks() && block.start == ack
      requires forall n :: n in tree.Blocks() ==> tree.Start(block) <= tree.Start(n)
      modifies this, tree`root, tree`h, tree`tree, tree.sentinel`parent, tree.sentinel`red, tree.h.nodes`packets
      modifies tree.h.nodes`left, tree.h.nodes`right, tree.h.nodes`parent, tree.h.nodes`red
      ensures Valid(Receive.Drain(r)) && tree.h.nodes <= old(tree.h.nodes)
    {
      hide *;
      DrainReady(block, r);
      First(block, r);
      ghost var top := r.irs + r.ack + TWO_31;
      ghost var rest := FirstRun(st, r, block, top);
      Eject(block);
      ghost var q := HandOver(block, rest, r);
      Drained(q, r, rest, |old(st).Packs(block)|);
    }

    lemma DrainReady(block: Block, r: Receiver)
      requires Kept() && Shows(r, if r.endedRemote then 1 else 0) && !endedRemote && block in tree.Blocks()
      ensures !r.endedRemote && Shows(r, 0) && Told(r) && block in st.blocks && block in tree.h.nodes
    {
    }

    lemma Drained(q: Receiver, r: Receiver, rest: map<nat, Seg>, n: nat)
      requires Kept() && Told(q) && Receive.Drain(q) == Receive.Drain(r) && q.held == rest && q.irs == r.irs && q.ack == r.ack + n
      requires st.base == r.irs && st.Full(null, rest, r.irs + r.ack + n + 1, r.irs + r.ack + TWO_31)
      ensures Valid(Receive.Drain(r))
    {
      hide *;
      NothingBelow(st, rest, r.irs + q.ack + 1, r.irs + r.ack + TWO_31, q.ack);
      DrainIdle(q);
      Widen(st, null, rest, r.irs + q.ack + 1, r.irs + r.ack + TWO_31, r.irs + q.ack + 1, r.irs + q.ack + TWO_31);
      ShowsNow(q, 1);
      IsValid(q);
    }

    /** A packet not behind: its payload is kept unless EOF has been reported, its END flag is noted. */
    method Note(seqno: uint32, s: Seg, ghost n: nat, ghost r: Receiver)
      requires Valid(r) && r.ack <= n < r.ack + TWO_31 && seqno == U32(r.irs + n)
      modifies this, tree`root, tree`h, tree`tree, tree.sentinel`parent, tree.sentinel`red, tree.h.nodes`end, tree.h.nodes`packets
      modifies tree.h.nodes`left, tree.h.nodes`right, tree.h.nodes`parent, tree.h.nodes`red
      ensures Kept() && fresh(tree.h.nodes - old(tree.h.nodes))
      ensures var t := Receive.Stored(r, n, s); Shows(t, if t.endedRemote then 1 else 0)
    {
      hide *;
      ghost var t := if r.endedRemote then r else Receive.Accept(r, n, s);
      NoteReady(r, n, s);
      if !endedRemote {
        Accept(seqno, s, n, r);
      }
      if s.end {
        MarkEnd(seqno, n, t);
      }
    }

    method MarkEnd(seqno: uint32, ghost n: nat, ghost t: Receiver)
      requires Kept() && Shows(t, if t.endedRemote then 1 else 0) && seqno == U32(t.irs + n)
      modifies this`endingRemote, this`remoteEnded
      ensures Kept() && var u := t.(endingRemote := true, remoteEnded := n); Shows(u, if u.endedRemote then 1 else 0)
    {
      ghost var u := t.(endingRemote := true, remoteEnded := n);
      MarkReady(t, u);
      MarkFields(seqno, n, t);
      hide *;
      ShowsNow(u, if t.endedRemote then 1 else 0);
    }

    method MarkFields(seqno: uint32, ghost n: nat, ghost t: Receiver)
      requires Told(t) && seqno == U32(t.irs + n)
      modifies this`endingRemote, this`remoteEnded
      ensures Told(t.(endingRemote := true, remoteEnded := n))
    {
      endingRemote := true;
      remoteEnded := seqno;
    }

    lemma MarkReady(t: Receiver, u: Receiver)
      requires Shows(t, if t.endedRemote then 1 else 0) && u.irs == t.irs && u.ack == t.ack && u.held == t.held && u.endedRemote == t.endedRemote
      ensures Told(t) && st.base == u.irs && st.Full(null, u.held, u.irs + u.ack + if u.endedRemote then 1 else 0, u.irs + u.ack + TWO_31)
    {
    }

    lemma NoteReady(r: Receiver, n: nat, s: Seg)
      requires Valid(r)
      ensures Kept() && endedRemote == r.endedRemote && (r.endedRemote ==> Shows(r, 1))
      ensures var t := if r.endedRemote then r else Receive.Accept(r, n, s);
              && t.endedRemote == r.endedRemote && t.irs == r.irs
              && Receive.Stored(r, n, s) == if s.end then t.(endingRemote := true, remoteEnded := n) else t
    {
    }

    lemma Compares(seqno: uint32, n: nat, r: Receiver)
      requires Valid(r) && seqno == U32(r.irs + n) && Within(n, r.ack)
      ensures SeqCompare(ack, seqno) <= 0 <==> r.ack <= n
      ensures SeqCompare(ack, seqno) <= 0 ==> n < r.ack + TWO_31
      ensures ack == U32(r.irs + r.ack) && Kept() && Shows(r, if r.endedRemote then 1 else 0)
    {
      SeqCompareTrue(r.irs + r.ack, r.irs + n);
      AsideReady(n, Seg([], false), r);
    }

    lemma IncomingIs(r: Receiver, n: nat, s: Option<Seg>)
      ensures Receive.Incoming(r, n, s) ==
              Receive.Drain(if SeqCompare(U32(r.irs + r.ack), U32(r.irs + n)) <= 0 && s.Some? then Receive.Stored(r, n, s.value) else r)
    {
      hide Receive.Drain, Receive.Stored, SeqCompare, U32;
    }

    /** The receiving half of `process_packet`, for a packet numbered `n`; `s` is its payload if it has the
        DATA or the END flag. */
    method Incoming(seqno: uint32, s: Option<Seg>, ghost n: nat, ghost r: Receiver)
      requires Valid(r) && seqno == U32(r.irs + n) && Within(n, r.ack)
      modifies this, tree`root, tree`h, tree`tree, tree.sentinel`parent, tree.sentinel`red, tree.h.nodes`end, tree.h.nodes`packets
      modifies tree.h.nodes`left, tree.h.nodes`right, tree.h.nodes`parent, tree.h.nodes`red
      ensures Valid(Receive.Incoming(r, n, s)) && fresh(tree.h.nodes - old(tree.h.nodes))
    {
      hide *;
      Compares(seqno, n, r);
      ghost var t := r;
      if SeqCompare(ack, seqno) <= 0 && s.Some? {
        Note(seqno, s.value, n, r);
        t := Receive.Stored(r, n, s.value);
      }
      IncomingIs(r, n, s);
      Drain(t);
    }

    // ---------- send_ack ----------

    /** The blocks listed so far are the first ones, and `p` is the next. */
    ghost predicate Listed(bs: seq<Block>, sacks: seq<Range>, wire: seq<(uint32, uint32)>, p: Block?)
      reads this`st
    {
      && |sacks| == |bs| == |wire| <= MAX_SACKS
      && (forall i :: 0 <= i < |bs| ==> bs[i] in st.blocks && Writes(bs[i], sacks[i], wire[i]))
      && (forall i, j :: 0 <= i < j < |bs| ==> st.Key(bs[i]) < st.Key(bs[j]))
      && (p == null ==> forall b :: b in st.blocks ==> b in bs)
      && (p != null ==> p in st.blocks && (forall i :: 0 <= i < |bs| ==> st.Key(bs[i]) < st.Key(p))
                        && forall b :: b in st.blocks ==> b in bs || st.Key(p) <= st.Key(b))
    }

    /** What the list says of a block, in true numbers counted from the first and on the wire. */
    ghost predicate Writes(b: Block, s: Range, w: (uint32, uint32))
      reads this`st
    {
      s.start == st.Key(b) - st.base && s.end == st.Stop(b) - st.base && w == (U32(st.Key(b)), U32(st.Stop(b)))
    }

    lemma ListMore(bs: seq<Block>, sacks: seq<Range>, wire: seq<(uint32, uint32)>, p: Block, next: Block?, s: Range, w: (uint32, uint32))
      requires Listed(bs, sacks, wire, p) && |bs| < 50 && Writes(p, s, w)
      requires next == null ==> forall n :: n in st.blocks ==> st.Key(n) <= st.Key(p)
      requires next != null ==> next in st.blocks && st.Key(p) < st.Key(next)
      requires next != null ==> forall n :: n in st.blocks ==> st.Key(n) <= st.Key(p) || st.Key(next) <= st.Key(n)
      requires forall a, b :: a in st.blocks && b in st.blocks && st.Key(a) == st.Key(b) ==> a == b
      ensures Listed(bs + [p], sacks + [s], wire + [w], next)
    {
      assert forall b :: b in bs + [p] <==> b in bs || b == p;
    }

    lemma KeysAre()
      requires Kept()
      ensures tree.Valid() && tree.Blocks() == st.blocks
      ensures forall n :: n in st.blocks ==> n in tree.h.key && tree.Start(n) == st.Key(n) && n.start == U32(st.Key(n)) && n.end == U32(st.Stop(n))
    {
      forall n | n in st.blocks
        ensures n in tree.h.key && tree.Start(n) == st.Key(n) && n.start == U32(st.Key(n))
      {
        StartOf(n);
      }
    }

    method FirstBlock() returns (p: Block?)
      requires Kept()
      ensures Listed([], [], [], p)
      ensures p != null ==> p.start == U32(st.Key(p)) && p.end == U32(st.Stop(p))
    {
      KeysAre();
      p := tree.Min();
    }

    method NextBlock(p: Block) returns (next: Block?)
      requires Kept() && p in st.blocks
      ensures next == null ==> forall n :: n in st.blocks ==> st.Key(n) <= st.Key(p)
      ensures next != null ==> next in st.blocks && st.Key(p) < st.Key(next) && next.start == U32(st.Key(next)) && next.end == U32(st.Stop(next))
      ensures next != null ==> forall n :: n in st.blocks ==> st.Key(n) <= st.Key(p) || st.Key(next) <= st.Key(n)
    {
      KeysAre();
      next := tree.Next(p);
      assert forall n :: n in st.blocks ==> n in tree.Blocks() && tree.Start(n) == st.Key(n);
    }

    lemma DistinctKeys(r: Receiver)
      requires Valid(r)
      ensures Kept() && st.blocks == tree.h.nodes && forall a, b :: a in st.blocks && b in st.blocks && st.Key(a) == st.Key(b) ==> a == b
      ensures forall b :: b in st.blocks ==> st.base <= st.Key(b) <= st.Stop(b)
    {
      forall a, b | a in st.blocks && b in st.blocks && st.Key(a) == st.Key(b)
        ensures a == b
      {
        assert a == b || st.Apart(a, b, null);
      }
    }

    /** The SACK list `send_ack` writes, and what it means. */
    method Sacks(ghost r: Receiver) returns (wire: seq<(uint32, uint32)>, ghost sacks: seq<Range>)
      requires Valid(r)
      ensures SackList(r.held, sacks) && |wire| == |sacks|
      ensures forall i :: 0 <= i < |wire| ==> wire[i] == (U32(r.irs + sacks[i].start), U32(r.irs + sacks[i].end))
    {
      hide *;
      ghost var bs: seq<Block> := [];
      wire, sacks := [], [];
      DistinctKeys(r);
      var p := FirstBlock();
      while p != null && |wire| < 50
        invariant Valid(r) && Kept() && Listed(bs, sacks, wire, p) && |bs| == |wire| <= 50
        invariant p != null ==> p.start == U32(st.Key(p)) && p.end == U32(st.Stop(p))
        decreases 50 - |wire|
      {
        ghost var s := RangeOf(p, bs, sacks, wire, r);
        var next := NextBlock(p);
        ListMore(bs, sacks, wire, p, next, s, (p.start, p.end));
        bs, sacks, wire := bs + [p], sacks + [s], wire + [(p.start, p.end)];
        p := next;
      }
      ListEnds(bs, sacks, wire, p, r);
    }

    lemma RangeOf(p: Block, bs: seq<Block>, sacks: seq<Range>, wire: seq<(uint32, uint32)>, r: Receiver) returns (s: Range)
      requires Valid(r) && Listed(bs, sacks, wire, p) && p.start == U32(st.Key(p)) && p.end == U32(st.Stop(p))
      ensures p in st.blocks && Writes(p, s, (p.start, p.end))
    {
      DistinctKeys(r);
      s := Range(st.Key(p) - st.base, st.Stop(p) - st.base);
    }

    lemma ListEnds(bs: seq<Block>, sacks: seq<Range>, wire: seq<(uint32, uint32)>, p: Block?, r: Receiver)
      requires Valid(r) && Listed(bs, sacks, wire, p) && (p == null || |wire| == 50)
      ensures SackList(r.held, sacks) && |wire| == |sacks|
      ensures forall i :: 0 <= i < |wire| ==> wire[i] == (U32(r.irs + sacks[i].start), U32(r.irs + sacks[i].end))
    {
      forall i, j | 0 <= i < j < |sacks|
        ensures sacks[i].end < sacks[j].start
      {
        ListGap(bs, sacks, wire, p, r, i, j);
      }
      forall i | 0 <= i < |sacks|
        ensures wire[i] == (U32(r.irs + sacks[i].start), U32(r.irs + sacks[i].end))
        ensures sacks[i].start < sacks[i].end && sacks[i].end !in r.held
        ensures forall n :: sacks[i].start <= n < sacks[i].end ==> n in r.held
      {
        ListRun(bs, sacks, wire, p, r, i);
      }
      forall n | n in r.held && !InRanges(n, sacks)
        ensures |sacks| == MAX_SACKS && sacks[MAX_SACKS - 1].end < n
      {
        Unlisted(bs, sacks, wire, p, r, n);
      }
      hide Reader.Valid, Writes;
    }

    lemma ListGap(bs: seq<Block>, sacks: seq<Range>, wire: seq<(uint32, uint32)>, p: Block?, r: Receiver, i: nat, j: nat)
      requires Valid(r) && Listed(bs, sacks, wire, p) && i < j < |sacks|
      ensures sacks[i].end < sacks[j].start
    {
      assert Writes(bs[i], sacks[i], wire[i]) && Writes(bs[j], sacks[j], wire[j]);
      assert st.Apart(bs[i], bs[j], null);
    }

    lemma ListRun(bs: seq<Block>, sacks: seq<Range>, wire: seq<(uint32, uint32)>, p: Block?, r: Receiver, i: nat)
      requires Valid(r) && Listed(bs, sacks, wire, p) && i < |sacks|
      ensures |wire| == |sacks| && wire[i] == (U32(r.irs + sacks[i].start), U32(r.irs + sacks[i].end))
      ensures sacks[i].start < sacks[i].end && sacks[i].end !in r.held
      ensures forall n :: sacks[i].start <= n < sacks[i].end ==> n in r.held
    {
      hide *;
      ListAt(bs, sacks, wire, p, r, i);
      ListedRun(st, r.held, bs[i], r.irs + r.ack + 1, r.irs + r.ack + TWO_31);
    }

    lemma ListAt(bs: seq<Block>, sacks: seq<Range>, wire: seq<(uint32, uint32)>, p: Block?, r: Receiver, i: nat)
      requires Valid(r) && Listed(bs, sacks, wire, p) && i < |sacks|
      ensures |wire| == |sacks| == |bs| && bs[i] in st.blocks && st.base == r.irs
      ensures st.Full(null, r.held, r.irs + r.ack + 1, r.irs + r.ack + TWO_31)
      ensures sacks[i].start == st.Key(bs[i]) - r.irs && sacks[i].end == st.Stop(bs[i]) - r.irs
      ensures wire[i] == (U32(st.Key(bs[i])), U32(st.Stop(bs[i])))
    {
      assert Writes(bs[i], sacks[i], wire[i]);
    }

    lemma Unlisted(bs: seq<Block>, sacks: seq<Range>, wire: seq<(uint32, uint32)>, p: Block?, r: Receiver, n: nat)
      requires Valid(r) && Listed(bs, sacks, wire, p) && (p == null || |wire| == MAX_SACKS) && n in r.held && !InRanges(n, sacks)
      ensures |sacks| == MAX_SACKS && sacks[MAX_SACKS - 1].end < n
    {
      var a := CoverOf(st, r.held, n);
      forall i | 0 <= i < |bs|
        ensures bs[i] != a
      {
        assert !(sacks[i].start <= n < sacks[i].end);
      }
      var last := bs[MAX_SACKS - 1];
      assert st.Apart(last, a, null);
    }

    /** `send_ack`: the ack number and the SACK list, then the test for the end of the stream. */
    method SendAck(ghost r: Receiver) returns (acked: uint32, wire: seq<(uint32, uint32)>, ghost sacks: seq<Range>)
      requires Valid(r)
      modifies this`endedRemote
      ensures acked == U32(r.irs + r.ack) && SackList(r.held, sacks) && |wire| == |sacks|
      ensures forall i :: 0 <= i < |wire| ==> wire[i] == (U32(r.irs + sacks[i].start), U32(r.irs + sacks[i].end))
      ensures Valid(AfterAck(r))
    {
      hide *;
      ValidParts(r);
      wire, sacks := Sacks(r);
      acked := ack;
      if endingRemote && !endedRemote && SeqCompare(remoteEnded, ack) <= 0 {
        endedRemote := true;
      }
      EndsAfterAck(r);
    }

    lemma ValidParts(r: Receiver)
      requires Valid(r)
      ensures Kept() && st.blocks == tree.h.nodes && st.base == r.irs && st.Full(null, r.held, r.irs + r.ack + 1, r.irs + r.ack + TWO_31)
      ensures ack == U32(r.irs + r.ack) && read == r.read && endingRemote == r.endingRemote && endedRemote == r.endedRemote
      ensures endingRemote ==> remoteEnded == U32(r.irs + r.remoteEnded)
    {
    }

    lemma EndsAfterAck(r: Receiver)
      requires Kept() && st.base == r.irs && st.Full(null, r.held, r.irs + r.ack + 1, r.irs + r.ack + TWO_31)
      requires ack == U32(r.irs + r.ack) && read == r.read && endingRemote == r.endingRemote
      requires endingRemote ==> remoteEnded == U32(r.irs + r.remoteEnded)
      requires endedRemote == (r.endedRemote || (endingRemote && SeqCompare(remoteEnded, ack) <= 0))
      ensures Valid(AfterAck(r))
    {
      hide Reader.Kept, Store.Full, U32, SeqCompare;
    }

    /** Where everything is between packets: the blocks begin after `ack` with gaps between them, each holds
        one payload for every number it spans, and together they hold exactly what is waiting. */
    lemma Layout(r: Receiver)
      requires Valid(r)
      ensures forall b :: b in tree.Blocks() ==> Spans(b, r) && b.packets != []
      ensures forall a, b :: a in tree.Blocks() && b in tree.Blocks() && a != b ==> st.Stop(a) < st.Key(b) || st.Stop(b) < st.Key(a)
      ensures forall m :: m in r.held ==> r.ack < m && exists b :: b in tree.Blocks() && st.Key(b) <= r.irs + m < st.Stop(b)
    {
      ValidParts(r);
      var lo, top := r.irs + r.ack + 1, r.irs + r.ack + TWO_31;
      hide *;
      forall b | b in tree.Blocks()
        ensures Spans(b, r) && b.packets != []
      {
        SpansBlock(b, r, lo, top);
      }
      forall a, b | a in tree.Blocks() && b in tree.Blocks() && a != b
        ensures st.Stop(a) < st.Key(b) || st.Stop(b) < st.Key(a)
      {
        KeysAre();
        GapBetween(st, r.held, a, b, lo, top);
      }
      forall m | m in r.held
        ensures r.ack < m && exists b :: b in tree.Blocks() && st.Key(b) <= r.irs + m < st.Stop(b)
      {
        KeysAre();
        var b := HolderOf(st, r.held, m, lo, top);
      }
    }

    /** A block on the wire and in memory: its bounds after `ack`, and its payloads number by number. */
    ghost predicate Spans(b: Block, r: Receiver)
      reads this`st, b`start, b`end, b`packets
    {
      && b.start == U32(st.Key(b)) && b.end == U32(st.Stop(b)) && r.irs + r.ack < st.Key(b)
      && |b.packets| == st.Stop(b) - st.Key(b)
      && forall i :: 0 <= i < |b.packets| ==> Payload(b, i, r)
    }

    /** Payload `i` of the block is the one held for the number `i` after its start. */
    ghost predicate Payload(b: Block, i: nat, r: Receiver)
      reads this`st, b`packets
    {
      i < |b.packets| && st.Key(b) - r.irs + i in r.held && r.held[st.Key(b) - r.irs + i] == b.packets[i]
    }

    lemma SpansBlock(b: Block, r: Receiver, lo: int, top: int)
      requires Kept() && st.base == r.irs && lo == r.irs + r.ack + 1 && st.Full(null, r.held, lo, top) && b in tree.Blocks()
      ensures Spans(b, r) && b.packets != []
    {
      InBounds(b, r.held, lo, top);
      assert b.packets == st.Packs(b) && |b.packets| == st.Stop(b) - st.Key(b);
      forall i | 0 <= i < |b.packets|
        ensures Payload(b, i, r)
      {
        assert st.HoldsAt(r.held, b, i);
      }
    }
  }

  lemma GapBetween(st: Store, held: map<nat, Seg>, a: Block, b: Block, lo: int, top: int)
    requires st.Full(null, held, lo, top) && a in st.blocks && b in st.blocks && a != b
    ensures st.Stop(a) < st.Key(b) || st.Stop(b) < st.Key(a)
  {
    assert st.Apart(a, b, null);
  }

  lemma HolderOf(st: Store, held: map<nat, Seg>, m: nat, lo: int, top: int) returns (b: Block)
    requires st.Full(null, held, lo, top) && m in held
    ensures b in st.blocks && st.Key(b) <= st.base + m < st.Stop(b) && lo <= st.base + m
  {
    b := CoverOf(st, held, m);
  }

  /** A block is a maximal run of numbers held. */
  lemma ListedRun(st: Store, held: map<nat, Seg>, b: Block, lo: int, top: int)
    requires st.Full(null, held, lo, top) && b in st.blocks
    ensures st.base <= st.Key(b) < st.Stop(b) && st.Stop(b) - st.base !in held
    ensures forall n :: st.Key(b) - st.base <= n < st.Stop(b) - st.base ==> n in held
  {
    OldPlace(st, held, b, lo, top);
    Free(st, held, b, st.Stop(b));
    forall n | st.Key(b) - st.base <= n < st.Stop(b) - st.base
      ensures n in held
    {
      assert st.HoldsAt(held, b, n - (st.Key(b) - st.base));
    }
  }

  lemma SameNumber(k: int, lo: int)
    requires lo <= k <= lo + TWO_31
    ensures U32(k) == U32(lo) <==> k == lo
  {
    ProjectionInjective(k, lo);
  }

  lemma HeldWith(held: map<nat, Seg>, base: nat, n: nat, s: Seg)
    ensures IsHeld(held, base, base + n) <==> n in held
    ensures With(held, base, base + n, s) == held[n := s]
  {
  }

  /** Beside `rest`, what is held is the run of packets from `ack` on. */
  ghost predicate Waiting(q: Receiver, rest: map<nat, Seg>, packs: seq<Seg>) {
    q.held == rest + Run(q.ack, packs) && forall m: nat :: m in rest ==> m < q.ack || q.ack + |packs| <= m
  }

  lemma RunSplits(held: map<nat, Seg>, rest: map<nat, Seg>, from: nat, packs: seq<Seg>)
    requires held == rest + Run(from, packs) && packs != [] && from !in rest
    ensures from in held && held[from] == packs[0]
    ensures held - {from} == rest + Run(from + 1, packs[1..])
  {
    assert from in Run(from, packs);
    var left, right := held - {from}, rest + Run(from + 1, packs[1..]);
    forall m: nat
      ensures m in left <==> m in right
      ensures m in left ==> left[m] == right[m]
    {
      assert m in Run(from, packs) <==> from <= m < from + |packs|;
      assert m in Run(from + 1, packs[1..]) <==> from + 1 <= m < from + |packs|;
    }
  }

  /** Delivering the first packet of the run is one round of the drain. */
  lemma HandOne(q: Receiver, rest: map<nat, Seg>, packs: seq<Seg>)
    requires Waiting(q, rest, packs) && packs != [] && !q.endedRemote
    ensures Waiting(Consume(q, packs[0]), rest, packs[1..])
    ensures Drain(q) == Drain(Consume(q, packs[0]))
  {
    HandOneHolds(q, rest, packs);
    hide *;
    DrainStep(q);
  }

  lemma HandOneHolds(q: Receiver, rest: map<nat, Seg>, packs: seq<Seg>)
    requires Waiting(q, rest, packs) && packs != []
    ensures q.ack in q.held && q.held[q.ack] == packs[0]
    ensures Waiting(Consume(q, packs[0]), rest, packs[1..])
  {
    RunSplits(q.held, rest, q.ack, packs);
  }

  lemma DrainStep(q: Receiver)
    requires !q.endedRemote && q.ack in q.held
    ensures Drain(q) == Drain(Consume(q, q.held[q.ack]))
  {
  }

  lemma DrainIdle(q: Receiver)
    requires q.endedRemote || q.ack !in q.held
    ensures Drain(q) == q
  {
  }

  lemma HandedAll(q: Receiver, rest: map<nat, Seg>)
    requires Waiting(q, rest, [])
    ensures q.held == rest
  {
    assert rest + Run(q.ack, []) == rest;
  }

  /** The first block begins at `ack`: its packets are the run from there, the rest lies beyond a gap. */
  lemma FirstRun(st: Store, r: Receiver, b: Block, top: int) returns (rest: map<nat, Seg>)
    requires st.Full(null, r.held, r.irs + r.ack, top) && st.base == r.irs && b in st.blocks && st.Key(b) == r.irs + r.ack
    requires forall n :: n in st.blocks ==> st.Key(b) <= st.Key(n)
    ensures Waiting(r, rest, st.Packs(b))
    ensures st.Without(b).base == r.irs && st.Without(b).Full(null, rest, r.irs + r.ack + |st.Packs(b)| + 1, top)
  {
    hide *;
    rest := Rest(r.held, r.ack, st.Stop(b) - st.base);
    SizeOf(st, r.held, b, r.irs + r.ack, top);
    Take(st, r.held, b, r.irs + r.ack, top);
    forall m: nat | m in rest
      ensures r.ack + |st.Packs(b)| <= m
    {
      RestBeyond(st, r.held, b, r.irs + r.ack, top, m);
    }
    IsWaiting(r, rest, st.Packs(b));
  }

  lemma SizeOf(st: Store, held: map<nat, Seg>, b: Block, lo: int, top: int)
    requires st.Full(null, held, lo, top) && b in st.blocks
    ensures |st.Packs(b)| == st.Stop(b) - st.Key(b) && st.Without(b).base == st.base <= lo
  {
  }

  lemma IsWaiting(q: Receiver, rest: map<nat, Seg>, packs: seq<Seg>)
    requires q.held == rest + Run(q.ack, packs) && forall m: nat :: m in rest ==> q.ack + |packs| <= m
    ensures Waiting(q, rest, packs)
  {
  }

  lemma RestBeyond(st: Store, held: map<nat, Seg>, b: Block, lo: int, top: int, m: nat)
    requires st.Full(null, held, lo, top) && b in st.blocks && st.Key(b) == lo && m in Rest(held, lo - st.base, st.Stop(b) - st.base)
    ensures st.Stop(b) - st.base <= m
  {
    var a := CoverOf(st, held, m);
  }
}
