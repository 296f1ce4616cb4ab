/** The intrusive circular list of src/queue.c: packets, write buffers and received payloads are
    threaded on it through nodes embedded in them. */
module Queue {

  /** A link, embedded in whatever is queued. */
  class Node {
    var next: Node?
    var prev: Node?

    constructor ()
      ensures next == null && prev == null
    {
      next, prev := null, null;
    }
  }

  /** `r` walks once round a ring: it comes back to its first node, and only there repeats one. */
  ghost predicate Circular(r: seq<Node>) {
    && |r| >= 2 && r[0] == r[|r| - 1]
    && forall i, j :: 0 <= i < j < |r| && r[i] == r[j] ==> i == 0 && j == |r| - 1
  }

  /** Consecutive members of `r` point at each other. */
  ghost predicate Linked(r: seq<Node>)
    reads r
  {
    && (forall i {:trigger r[i].next} :: 0 <= i < |r| - 1 ==> r[i].next == r[i + 1])
    && (forall i {:trigger r[i].prev} :: 0 < i < |r| ==> r[i].prev == r[i - 1])
  }

  /** The ring with a node put in after place `at`. */
  lemma RingWith(r: seq<Node>, at: nat, added: Node) returns (s: seq<Node>)
    requires Circular(r) && at < |r| - 1 && added !in r
    ensures Circular(s) && |s| == |r| + 1 && s[at + 1] == added
    ensures forall i :: 0 <= i <= at ==> s[i] == r[i]
    ensures forall i :: at + 2 <= i < |s| ==> s[i] == r[i - 1]
    ensures s[1..|s| - 1] == r[1..|r| - 1][..at] + [added] + r[1..|r| - 1][at..]
  {
    s := seq(|r| + 1, i requires 0 <= i <= |r| => if i <= at then r[i] else if i == at + 1 then added else r[i - 1]);
    var items := r[1..|r| - 1];
    assert s[1..|s| - 1] == items[..at] + [added] + items[at..];
  }

  /** The ring with the node at place `at` taken out. */
  lemma RingWithout(r: seq<Node>, at: nat) returns (s: seq<Node>)
    requires Circular(r) && 0 < at < |r| - 1
    ensures Circular(s) && |s| == |r| - 1
    ensures forall i :: 0 <= i < at ==> s[i] == r[i]
    ensures forall i :: at <= i < |s| ==> s[i] == r[i + 1]
    ensures s[1..|s| - 1] == r[1..|r| - 1][..at - 1] + r[1..|r| - 1][at..]
  {
    s := seq(|r| - 1, i requires 0 <= i < |r| - 1 => if i < at then r[i] else r[i + 1]);
    var items := r[1..|r| - 1];
    assert s[1..|s| - 1] == items[..at - 1] + items[at..];
  }

  /** Two rings opened at their heads and closed into one. */
  lemma RingJoined(r: seq<Node>, s: seq<Node>) returns (t: seq<Node>)
    requires Circular(r) && Circular(s)
    requires forall n :: n in s ==> n !in r
    ensures Circular(t) && |t| == |r| + |s| - 2 && t[|t| - 1] == r[0]
    ensures forall i :: 0 <= i < |r| - 1 ==> t[i] == r[i]
    ensures forall i :: |r| - 1 <= i < |t| - 1 ==> t[i] == s[i - |r| + 2]
    ensures t[1..|t| - 1] == r[1..|r| - 1] + s[1..|s| - 1]
    ensures s[0] !in t
  {
    var m, n := |r| - 2, |r| + |s| - 2;
    t := seq(n, i requires 0 <= i < n => if i == n - 1 then r[0] else if i <= m then r[i] else s[i - m]);
    var mine, theirs := r[1..|r| - 1], s[1..|s| - 1];
    forall i | 0 <= i < n - 2
      ensures t[i + 1] == (mine + theirs)[i]
    {
    }
    assert t[1..n - 1] == mine + theirs;
    forall i, j | 0 <= i < j < |t| && !(i == 0 && j == |t| - 1)
      ensures t[i] != t[j]
    {
      var u, v := if i <= m then r[i] else s[i - m], if j == |t| - 1 then r[0] else if j <= m then r[j] else s[j - m];
      assert t[i] == u && t[j] == v;
      assert u in if i <= m then r else s;
      assert v in if i <= m && m < j < |t| - 1 then s else if i > m && j < |t| - 1 then s else r;
    }
    forall i | 0 <= i < |t|
      ensures t[i] != s[0] && s[0] in s
    {
      assert i == n - 1 || i <= m ==> t[i] in r;
    }
  }

  /** `udx_queue_t`: the head node closes the ring. */
  class List {
    const node: Node
    var len: nat
    /** The ring read once round, from the head node back to the head node. */
    ghost var ring: seq<Node>

    ghost predicate Valid()
      reads this, node, ring
    {
      && Circular(ring) && ring[0] == node
      && Linked(ring)
      && len == |ring| - 2
    }

    /** The queued nodes, front first. */
    ghost function Items(): seq<Node>
      reads this
      requires |ring| >= 2
    {
      ring[1..|ring| - 1]
    }

    constructor ()
      ensures Valid() && fresh(node) && Items() == []
    {
      node := new Node();
      len := 0;
      new;
      node.prev := node;
      node.next := node;
      ring := [node, node];
    }

    /** `udx__queue_init`. The nodes that were queued keep their stale links. */
    method Init()
      modifies this, node
      ensures Valid() && Items() == []
    {
      node.prev := node;
      node.next := node;
      len := 0;
      ring := [node, node];
    }

    /** `queue_insert` between two neighbours; `at` says where that is. */
    method Insert(added: Node, prev: Node, next: Node, ghost at: nat)
      requires Valid() && added !in ring
      requires at < |ring| - 1 && ring[at] == prev && ring[at + 1] == next
      modifies this, added, ring
      ensures Valid()
      ensures Items() == old(Items())[..at] + [added] + old(Items())[at..]
    {
      added.next := next;
      added.prev := prev;
      next.prev := added;
      prev.next := added;
      len := len + 1;
      ghost var r := ring;
      ring := RingWith(r, at, added);
      forall i {:trigger ring[i].next} | 0 <= i < |ring| - 1
        ensures ring[i].next == ring[i + 1]
      {
        assert ring[i] == if i <= at then r[i] else if i == at + 1 then added else r[i - 1];
      }
    }

    /** `udx__queue_head`. */
    method Head(added: Node)
      requires Valid() && added !in ring
      modifies this, added, ring
      ensures Valid() && Items() == [added] + old(Items())
    {
      assert ring[0].next == ring[1];
      Insert(added, node, node.next, 0);
    }

    /** `udx__queue_tail`. */
    method Tail(added: Node)
      requires Valid() && added !in ring
      modifies this, added, ring
      ensures Valid() && Items() == old(Items()) + [added]
    {
      ghost var last := |ring| - 2;
      assert ring[last].next == ring[last + 1] == node && ring[last + 1].prev == ring[last];
      Insert(added, node.prev, node, last);
    }

    /** `udx__queue_unlink`; `at` is the place of `p` in the ring, which must hold it. */
    method Unlink(p: Node, ghost at: nat)
      requires Valid() && 0 < at < |ring| - 1 && ring[at] == p
      modifies this, ring
      ensures Valid()
      ensures Items() == old(Items())[..at - 1] + old(Items())[at..]
      ensures p.next == null && p.prev == null
    {
      assert ring[at].next == ring[at + 1] && ring[at].prev == ring[at - 1];
      len := len - 1;
      p.prev.next := p.next;
      p.next.prev := p.prev;
      p.next := null;
      p.prev := null;
      ghost var r := ring;
      ring := RingWithout(r, at);
    }

    /** `udx__queue_peek`. */
    method Peek() returns (first: Node?)
      requires Valid()
      ensures first == if Items() == [] then null else Items()[0]
    {
      assert ring[0].next == ring[1];
      first := node.next;
      if first == node {
        first := null;
      }
    }

    /** `udx__queue_shift`. */
    method Shift() returns (first: Node?)
      requires Valid()
      modifies this, ring
      ensures Valid()
      ensures old(Items()) == [] ==> first == null && Items() == []
      ensures old(Items()) != [] ==> first == old(Items())[0] && Items() == old(Items())[1..] && first.next == null
    {
      first := Peek();
      if first != null {
        Unlink(first, 1);
      }
    }

    /** `udx__queue_splice_tail`: everything on `t` moves to the end of this queue and `t` is left empty.
        The four pointer writes are right for every `t`, the empty one included. */
    method SpliceTail(t: List)
      requires Valid() && t.Valid() && t != this
      requires forall n :: n in t.ring ==> n !in ring
      modifies this, ring, t, t.ring
      ensures Valid() && Items() == old(Items()) + old(t.Items())
      ensures t.Valid() && t.Items() == []
    {
      ghost var r, s := ring, t.ring;
      ghost var u := RingJoined(r, s);
      SpliceLinks(t, u);
      len := len + t.len;
      ring := u;
      t.Init();
    }

    /** The four pointer writes. */
    method SpliceLinks(t: List, ghost u: seq<Node>)
      requires Valid() && t.Valid()
      requires forall n :: n in t.ring ==> n !in ring
      requires |u| == |ring| + |t.ring| - 2 && u[|u| - 1] == node
      requires forall i :: 0 <= i < |ring| - 1 ==> u[i] == ring[i]
      requires forall i :: |ring| - 1 <= i < |u| - 1 ==> u[i] == t.ring[i - |ring| + 2]
      modifies ring, t.ring
      ensures Linked(u)
    {
      ghost var r, s := ring, t.ring;
      ghost var m, k := |r| - 2, |s| - 2;
      assert r[m].next == r[m + 1] == node && r[0].next == r[1] && r[m + 1].prev == r[m];
      assert s[k].next == s[k + 1] == t.node && s[0].next == s[1] && s[k + 1].prev == s[k];
      assert r[0] in r && r[m] in r && s[0] in s && s[1] in s && s[k] in s;
      assert forall i :: 0 < i <= k ==> s[i] != r[m] && s[i] != node && s[i] != t.node;
      assert forall i :: 0 <= i <= m ==> r[i] != s[1] && r[i] != s[k] && r[i] != t.node;
      node.prev.next := t.node.next;
      t.node.next.prev := node.prev;
      node.prev := t.node.prev;
      node.prev.next := node;
    }
  }
}
