/** What the pointers of src/udx_sack_tree.c hold: a subtree and the path to it. How that changes when a
    pointer is written, and that a rotation keeps it. */
module SackLinks {
  import opened SeqArith
  import opened RedBlack
  import opened Receive

  /** `udx_sack_block_t`. */
  class Block {
    var start: uint32
    var end: uint32
    /** The payloads of `packet_queue`, front first. */
    var packets: seq<Seg>
    var left: Block?
    var right: Block?
    var parent: Block?
    var red: bool

    constructor (start: uint32)
      ensures this.start == start && end == start && packets == []
    {
      this.start := start;
      end, packets := start, [];
      left, right, parent, red := null, null, null, false;
    }
  }

  /** The pointers and colours of a tree at one moment, as values. */
  datatype Links = Links(
    nil: Block, root: Block, nodes: set<Block>,
    left: map<Block, Block?>, right: map<Block, Block?>, parent: map<Block, Block?>, red: map<Block, bool>,
    key: map<Block, int>, min: int, max: int)
  {
    ghost function L(n: Block?): Block? { if n != null && n in left then left[n] else null }
    ghost function R(n: Block?): Block? { if n != null && n in right then right[n] else null }
    ghost function P(n: Block?): Block? { if n != null && n in parent then parent[n] else null }
    ghost function C(n: Block?): bool { n != null && n in red && red[n] }

    /** `p` points at the subtree `t`, and the parent of its root is `par`. */
    ghost predicate Rep(t: Shape<Block>, p: Block?, par: Block?)
      decreases t
    {
      match t
      case Leaf => p == nil
      case Node(l, b, c, r) => p == b && b != nil && P(b) == par && C(b) == c && Rep(l, L(b), b) && Rep(r, R(b), b)
    }

    /** Around the pointer `p`, whose parent is `par`, lies `path`. */
    ghost predicate RepPath(path: Path<Block>, p: Block?, par: Block?)
      decreases path
    {
      match path
      case Top => root == p && par == null
      case InLeft(up, b, c, r) => par == b && b != nil && C(b) == c && L(b) == p && Rep(r, R(b), b) && RepPath(up, b, P(b))
      case InRight(up, l, b, c) => par == b && b != nil && C(b) == c && R(b) == p && Rep(l, L(b), b) && RepPath(up, b, P(b))
    }

    ghost predicate SameAt(g: Links, n: Block) {
      g.L(n) == L(n) && g.R(n) == R(n) && g.P(n) == P(n) && g.C(n) == C(n)
    }

    /** The subtree `t` and the `path` to it are in order. */
    ghost predicate InOrder(t: Shape<Block>, path: Path<Block>) {
      && path.Ordered(key, min, max) && t.Ordered(key, path.Lo(key, min), path.Hi(key, max))
      && t.Blocks() <= nodes && path.Blocks() <= nodes && nil !in nodes
    }

    /** The pointers hold `t` at `p` and `path` around it. */
    ghost predicate Holds(t: Shape<Block>, p: Block?, path: Path<Block>) {
      Rep(t, p, if path == Top then null else path.block) && RepPath(path, p, if path == Top then null else path.block)
    }
  }

  // ---------- frames ----------

  lemma {:induction false} RepFrame(h: Links, g: Links, t: Shape<Block>, p: Block?, par: Block?)
    requires h.Rep(t, p, par) && g.nil == h.nil
    requires forall n :: n in t.Blocks() ==> h.SameAt(g, n)
    ensures g.Rep(t, p, par)
    decreases t
  {
    if t.Node? {
      assert h.SameAt(g, t.block);
      RepFrame(h, g, t.left, h.L(t.block), t.block);
      RepFrame(h, g, t.right, h.R(t.block), t.block);
    }
  }

  /** A subtree that only changed the parent of its root. */
  lemma RepMoved(h: Links, g: Links, t: Shape<Block>, p: Block?, par: Block?, newPar: Block?, lo: int, hi: int)
    requires h.Rep(t, p, par) && g.nil == h.nil && t.Ordered(h.key, lo, hi)
    requires forall n :: n in t.Blocks() && n != p ==> h.SameAt(g, n)
    requires t.Node? ==> g.L(p) == h.L(p) && g.R(p) == h.R(p) && g.C(p) == h.C(p) && g.P(p) == newPar
    ensures g.Rep(t, p, newPar)
  {
    if t.Node? {
      KeysBetween(t.left, h.key, lo, h.key[p]);
      KeysBetween(t.right, h.key, h.key[p], hi);
      RepFrame(h, g, t.left, h.L(t.block), t.block);
      RepFrame(h, g, t.right, h.R(t.block), t.block);
    }
  }

  lemma {:induction false} PathFrame(h: Links, g: Links, path: Path<Block>, p: Block?, par: Block?)
    requires h.RepPath(path, p, par) && g.nil == h.nil && g.root == h.root
    requires forall n :: n in path.Blocks() ==> h.SameAt(g, n)
    ensures g.RepPath(path, p, par)
    decreases path
  {
    if path != Top {
      assert h.SameAt(g, path.block);
      PathFrame(h, g, path.up, path.block, h.P(path.block));
      RepFrame(h, g, path.Sibling(), if path.InLeft? then h.R(path.block) else h.L(path.block), path.block);
    }
  }

  /** A path that only changed what it surrounds: the child pointer of its head, or the root. */
  lemma PathMoved(h: Links, g: Links, path: Path<Block>, p: Block?, par: Block?, q: Block?)
    requires h.RepPath(path, p, par) && g.nil == h.nil && path.Ordered(h.key, h.min, h.max)
    requires path == Top ==> g.root == q
    requires path != Top ==>
               && g.root == h.root
               && (forall n :: n in path.Blocks() && n != path.block ==> h.SameAt(g, n))
               && g.P(path.block) == h.P(path.block) && g.C(path.block) == h.C(path.block)
               && g.L(path.block) == (if path.InLeft? then q else h.L(path.block))
               && g.R(path.block) == (if path.InLeft? then h.R(path.block) else q)
    ensures g.RepPath(path, q, par)
  {
    if path != Top {
      KeysOutside(path.up, h.key, h.min, h.max);
      SiblingBetween(path, h.key, h.min, h.max);
      PathFrame(h, g, path.up, path.block, h.P(path.block));
      RepFrame(h, g, path.Sibling(), if path.InLeft? then h.R(path.block) else h.L(path.block), path.block);
    }
  }

  lemma SiblingBetween(path: Path<Block>, key: map<Block, int>, min: int, max: int)
    requires path != Top && path.Ordered(key, min, max)
    ensures forall n :: n in path.Sibling().Blocks() ==> n != path.block
  {
    if path.InLeft? {
      KeysBetween(path.right, key, key[path.block], path.up.Hi(key, max));
    } else {
      KeysBetween(path.left, key, path.up.Lo(key, min), key[path.block]);
    }
  }

  /** The root pointer lies on the path. */
  lemma {:induction false} RootOnPath(h: Links, path: Path<Block>, p: Block?, par: Block?)
    requires h.RepPath(path, p, par) && path != Top
    ensures h.root in path.Blocks()
    decreases path
  {
    if path.up != Top {
      RootOnPath(h, path.up, path.block, h.P(path.block));
    }
  }

  // ---------- rotations ----------

  ghost function NewParent(h: Links, n: Block, node: Block, temp: Block, child: Block?): Block? {
    if n == node then temp else if n == temp then h.P(node) else if n == child then node else h.P(n)
  }

  /** From `h` to `g`, `temp` rose from the right child of `node` to its place. */
  ghost predicate LeftPivot(h: Links, g: Links, node: Block, temp: Block, path: Path<Block>) {
    && g.nil == h.nil && g.P(h.nil) == h.P(h.nil) && g.C(h.nil) == h.C(h.nil)
    && g.nodes == h.nodes && g.root == (if path == Top then temp else h.root)
    && (forall n {:trigger g.L(n)} :: n in h.nodes ==> g.L(n) == if n == temp then node else if path.InLeft? && n == path.block then temp else h.L(n))
    && (forall n {:trigger g.R(n)} :: n in h.nodes ==> g.R(n) == if n == node then h.L(temp) else if path.InRight? && n == path.block then temp else h.R(n))
    && (forall n {:trigger g.P(n)} :: n in h.nodes ==> g.P(n) == NewParent(h, n, node, temp, h.L(temp)))
    && (forall n {:trigger g.C(n)} :: n in h.nodes ==> g.C(n) == h.C(n))
  }

  /** The writes of `rbtree_left_rotate`, field by field in order. */
  ghost function LeftRotated(h: Links, node: Block, temp: Block, child: Block, path: Path<Block>): Links {
    var left := if path.InLeft? then h.left[path.block := temp] else h.left;
    var right := h.right[node := child];
    var right := if path.InRight? then right[path.block := temp] else right;
    h.(root := if path == Top then temp else h.root,
       left := left[temp := node], right := right, parent := TurnedParents(h, node, temp, child, path))
  }

  ghost function TurnedParents(h: Links, node: Block, temp: Block, child: Block, path: Path<Block>): map<Block, Block?> {
    var parent := if child == h.nil then h.parent else h.parent[child := node];
    var parent := parent[temp := h.P(node)];
    var parent := if path == Top then parent[temp := null] else parent;
    parent[node := temp]
  }

  lemma TurnedParentsAt(h: Links, node: Block, temp: Block, child: Block, path: Path<Block>, n: Block)
    requires node != temp && n != h.nil && child != temp && child != node
    requires path == Top ==> h.P(node) == null
    ensures var parent := TurnedParents(h, node, temp, child, path);
            (if n in parent then parent[n] else null) == NewParent(h, n, node, temp, child)
  {
  }

  lemma LeftRotatedPivots(h: Links, node: Block, temp: Block, child: Block, path: Path<Block>)
    requires node != temp && node != h.nil && temp != h.nil && h.nil !in h.nodes
    requires h.L(temp) == child && child != node && child != temp
    requires path == Top ==> h.P(node) == null
    requires path != Top ==> path.block != node && path.block != temp
    ensures LeftPivot(h, LeftRotated(h, node, temp, child, path), node, temp, path)
  {
    var g := LeftRotated(h, node, temp, child, path);
    forall n | n in h.nodes
      ensures g.P(n) == NewParent(h, n, node, temp, child)
    {
      TurnedParentsAt(h, node, temp, child, path, n);
    }
  }

  /** From `h` to `g`, `temp` rose from the left child of `node` to its place. */
  ghost predicate RightPivot(h: Links, g: Links, node: Block, temp: Block, path: Path<Block>) {
    && g.nil == h.nil && g.P(h.nil) == h.P(h.nil) && g.C(h.nil) == h.C(h.nil)
    && g.nodes == h.nodes && g.root == (if path == Top then temp else h.root)
    && (forall n {:trigger g.R(n)} :: n in h.nodes ==> g.R(n) == if n == temp then node else if path.InRight? && n == path.block then temp else h.R(n))
    && (forall n {:trigger g.L(n)} :: n in h.nodes ==> g.L(n) == if n == node then h.R(temp) else if path.InLeft? && n == path.block then temp else h.L(n))
    && (forall n {:trigger g.P(n)} :: n in h.nodes ==> g.P(n) == NewParent(h, n, node, temp, h.R(temp)))
    && (forall n {:trigger g.C(n)} :: n in h.nodes ==> g.C(n) == h.C(n))
  }

  /** The writes of `rbtree_right_rotate`, field by field in order. */
  ghost function RightRotated(h: Links, node: Block, temp: Block, child: Block, path: Path<Block>): Links {
    var right := if path.InRight? then h.right[path.block := temp] else h.right;
    var left := h.left[node := child];
    var left := if path.InLeft? then left[path.block := temp] else left;
    h.(root := if path == Top then temp else h.root,
       right := right[temp := node], left := left, parent := TurnedParents(h, node, temp, child, path))
  }

  lemma RightRotatedPivots(h: Links, node: Block, temp: Block, child: Block, path: Path<Block>)
    requires node != temp && node != h.nil && temp != h.nil && h.nil !in h.nodes
    requires h.R(temp) == child && child != node && child != temp
    requires path == Top ==> h.P(node) == null
    requires path != Top ==> path.block != node && path.block != temp
    ensures RightPivot(h, RightRotated(h, node, temp, child, path), node, temp, path)
  {
    var g := RightRotated(h, node, temp, child, path);
    forall n | n in h.nodes
      ensures g.P(n) == NewParent(h, n, node, temp, child)
    {
      TurnedParentsAt(h, node, temp, child, path, n);
    }
  }

  /** The blocks a pivot writes to: the pair that turns, the child that changes sides, the parent above. */
  ghost predicate Turned(n: Block, x: Block, y: Block, b: Shape<Block>, path: Path<Block>) {
    n == x || n == y || (b.Node? && n == b.block) || (path != Top && n == path.block)
  }

  /** `x`, `b` and `y` stand in this order inside `path`. */
  ghost predicate Pair(h: Links, x: Block, b: Shape<Block>, y: Block, path: Path<Block>) {
    && path.Ordered(h.key, h.min, h.max)
    && x in h.key && y in h.key && path.Lo(h.key, h.min) < h.key[x] < h.key[y] < path.Hi(h.key, h.max)
    && b.Ordered(h.key, h.key[x], h.key[y])
  }

  lemma TurnedKeys(h: Links, n: Block, x: Block, b: Shape<Block>, y: Block, path: Path<Block>)
    requires Pair(h, x, b, y, path) && Turned(n, x, y, b, path)
    ensures n in h.key && (h.key[n] <= path.Lo(h.key, h.min) || h.key[n] >= path.Hi(h.key, h.max) || h.key[x] <= h.key[n] <= h.key[y])
    ensures n == x || n == y || (b.Node? && n == b.block && h.key[x] < h.key[n] < h.key[y])
            || (path != Top && n == path.block && (h.key[n] <= path.Lo(h.key, h.min) || h.key[n] >= path.Hi(h.key, h.max)))
  {
  }

  /** What is written lies apart from the subtrees on either side of the pair, ... */
  lemma TurnedOutsideSubtree(h: Links, t: Shape<Block>, lo: int, hi: int, x: Block, b: Shape<Block>, y: Block, path: Path<Block>)
    requires Pair(h, x, b, y, path) && t.Ordered(h.key, lo, hi)
    requires path.Lo(h.key, h.min) <= lo && hi <= path.Hi(h.key, h.max) && (hi <= h.key[x] || h.key[y] <= lo)
    ensures forall n :: n in t.Blocks() ==> !Turned(n, x, y, b, path)
  {
    KeysBetween(t, h.key, lo, hi);
    forall n | n in t.Blocks()
      ensures !Turned(n, x, y, b, path)
    {
      if Turned(n, x, y, b, path) {
        TurnedKeys(h, n, x, b, y, path);
      }
    }
  }

  /** ... from the rest of the subtree that changes sides, ... */
  lemma TurnedInMiddle(h: Links, x: Block, b: Shape<Block>, y: Block, path: Path<Block>)
    requires Pair(h, x, b, y, path)
    ensures forall n :: n in b.Blocks() && n != b.block ==> !Turned(n, x, y, b, path)
  {
    KeysBetween(b, h.key, h.key[x], h.key[y]);
    forall n | n in b.Blocks() && n != b.block
      ensures !Turned(n, x, y, b, path)
    {
      if Turned(n, x, y, b, path) {
        TurnedKeys(h, n, x, b, y, path);
      }
    }
  }

  /** ... and from the rest of the path. */
  lemma TurnedOnPath(h: Links, x: Block, b: Shape<Block>, y: Block, path: Path<Block>)
    requires Pair(h, x, b, y, path)
    ensures forall n :: n in path.Blocks() && n != path.block ==> !Turned(n, x, y, b, path)
  {
    KeysOutside(path, h.key, h.min, h.max);
    forall n | n in path.Blocks() && n != path.block
      ensures !Turned(n, x, y, b, path)
    {
      if Turned(n, x, y, b, path) {
        TurnedKeys(h, n, x, b, y, path);
      }
    }
  }

  /** From `h` to `g` only what a pivot of the pair may write to was written to. */
  ghost predicate Untouched(h: Links, g: Links, x: Block, b: Shape<Block>, y: Block, path: Path<Block>) {
    && g.nil == h.nil && h.nil !in h.nodes && (path != Top ==> g.root == h.root)
    && forall n :: n in h.nodes && !Turned(n, x, y, b, path) ==> h.SameAt(g, n)
  }

  lemma SideHolds(h: Links, g: Links, t: Shape<Block>, p: Block?, par: Block, lo: int, hi: int,
                  x: Block, b: Shape<Block>, y: Block, path: Path<Block>)
    requires Untouched(h, g, x, b, y, path) && Pair(h, x, b, y, path)
    requires h.Rep(t, p, par) && t.Ordered(h.key, lo, hi) && t.Blocks() <= h.nodes
    requires path.Lo(h.key, h.min) <= lo && hi <= path.Hi(h.key, h.max) && (hi <= h.key[x] || h.key[y] <= lo)
    ensures g.Rep(t, p, par)
  {
    TurnedOutsideSubtree(h, t, lo, hi, x, b, y, path);
    RepFrame(h, g, t, p, par);
  }

  lemma MiddleHolds(h: Links, g: Links, p: Block?, par: Block, newPar: Block, x: Block, b: Shape<Block>, y: Block, path: Path<Block>)
    requires Untouched(h, g, x, b, y, path) && Pair(h, x, b, y, path)
    requires h.Rep(b, p, par) && b.Blocks() <= h.nodes
    requires b.Node? ==> g.L(p) == h.L(p) && g.R(p) == h.R(p) && g.C(p) == h.C(p) && g.P(p) == newPar
    ensures g.Rep(b, p, newPar)
  {
    TurnedInMiddle(h, x, b, y, path);
    RepMoved(h, g, b, p, par, newPar, h.key[x], h.key[y]);
  }

  lemma AroundHolds(h: Links, g: Links, p: Block, q: Block, par: Block?, x: Block, b: Shape<Block>, y: Block, path: Path<Block>)
    requires Untouched(h, g, x, b, y, path) && Pair(h, x, b, y, path)
    requires h.RepPath(path, p, par) && path.Blocks() <= h.nodes
    requires path == Top ==> g.root == q
    requires path != Top ==>
               && g.P(path.block) == h.P(path.block) && g.C(path.block) == h.C(path.block)
               && g.L(path.block) == (if path.InLeft? then q else h.L(path.block))
               && g.R(path.block) == (if path.InLeft? then h.R(path.block) else q)
    ensures g.RepPath(path, q, par)
  {
    TurnedOnPath(h, x, b, y, path);
    PathMoved(h, g, path, p, par, q);
  }

  lemma LeftPivotUntouched(h: Links, g: Links, node: Block, b: Shape<Block>, temp: Block, path: Path<Block>)
    requires LeftPivot(h, g, node, temp, path) && h.nil !in h.nodes
    requires h.Rep(b, h.L(temp), temp)
    ensures Untouched(h, g, node, b, temp, path)
  {
  }

  /** What a left pivot does to the four blocks it turns. */
  lemma LeftPivotTurned(h: Links, g: Links, node: Block, b: Shape<Block>, temp: Block, path: Path<Block>)
    requires LeftPivot(h, g, node, temp, path) && Pair(h, node, b, temp, path) && h.nil !in h.nodes
    requires h.Rep(b, h.L(temp), temp) && node in h.nodes && temp in h.nodes && b.Blocks() + path.Blocks() <= h.nodes
    ensures node != temp
    ensures g.L(temp) == node && g.R(temp) == h.R(temp) && g.P(temp) == h.P(node) && g.C(temp) == h.C(temp)
    ensures g.L(node) == h.L(node) && g.R(node) == h.L(temp) && g.P(node) == temp && g.C(node) == h.C(node)
    ensures b.Node? ==> var p := h.L(temp); g.L(p) == h.L(p) && g.R(p) == h.R(p) && g.C(p) == h.C(p) && g.P(p) == node
    ensures path != Top ==>
              && g.P(path.block) == h.P(path.block) && g.C(path.block) == h.C(path.block)
              && g.L(path.block) == (if path.InLeft? then temp else h.L(path.block))
              && g.R(path.block) == (if path.InLeft? then h.R(path.block) else temp)
  {
    assert b.Node? ==> b.block in b.Blocks();
    assert path != Top ==> path.block in path.Blocks();
    KeysOutside(path, h.key, h.min, h.max);
  }

  /** Turning left keeps what the pointers hold. */
  lemma LeftPivotHolds(h: Links, g: Links, a: Shape<Block>, node: Block, c: bool, b: Shape<Block>, temp: Block, d: bool,
                       e: Shape<Block>, path: Path<Block>)
    requires var t := Node(a, node, c, Node(b, temp, d, e)); h.Holds(t, node, path) && h.InOrder(t, path)
    requires LeftPivot(h, g, node, temp, path)
    ensures g.Holds(Node(Node(a, node, c, b), temp, d, e), temp, path)
  {
    var t := Node(b, temp, d, e);
    var lo, hi := path.Lo(h.key, h.min), path.Hi(h.key, h.max);
    assert t.Blocks() <= h.nodes && b.Blocks() <= h.nodes;
    assert h.Rep(t, h.R(node), node) && t.Ordered(h.key, h.key[node], hi);
    assert h.Rep(b, h.L(temp), temp);
    LeftPivotUntouched(h, g, node, b, temp, path);
    LeftPivotTurned(h, g, node, b, temp, path);
    SideHolds(h, g, a, h.L(node), node, lo, h.key[node], node, b, temp, path);
    SideHolds(h, g, e, h.R(temp), temp, h.key[temp], hi, node, b, temp, path);
    MiddleHolds(h, g, h.L(temp), temp, node, node, b, temp, path);
    AroundHolds(h, g, node, temp, h.P(node), node, b, temp, path);
    assert g.Rep(Node(a, node, c, b), node, temp);
  }

  lemma RightPivotUntouched(h: Links, g: Links, node: Block, b: Shape<Block>, temp: Block, path: Path<Block>)
    requires RightPivot(h, g, node, temp, path) && h.nil !in h.nodes
    requires h.Rep(b, h.R(temp), temp)
    ensures Untouched(h, g, temp, b, node, path)
  {
  }

  /** What a right pivot does to the four blocks it turns. */
  lemma RightPivotTurned(h: Links, g: Links, node: Block, b: Shape<Block>, temp: Block, path: Path<Block>)
    requires RightPivot(h, g, node, temp, path) && Pair(h, temp, b, node, path) && h.nil !in h.nodes
    requires h.Rep(b, h.R(temp), temp) && node in h.nodes && temp in h.nodes && b.Blocks() + path.Blocks() <= h.nodes
    ensures node != temp
    ensures g.R(temp) == node && g.L(temp) == h.L(temp) && g.P(temp) == h.P(node) && g.C(temp) == h.C(temp)
    ensures g.R(node) == h.R(node) && g.L(node) == h.R(temp) && g.P(node) == temp && g.C(node) == h.C(node)
    ensures b.Node? ==> var p := h.R(temp); g.L(p) == h.L(p) && g.R(p) == h.R(p) && g.C(p) == h.C(p) && g.P(p) == node
    ensures path != Top ==>
              && g.P(path.block) == h.P(path.block) && g.C(path.block) == h.C(path.block)
              && g.L(path.block) == (if path.InLeft? then temp else h.L(path.block))
              && g.R(path.block) == (if path.InLeft? then h.R(path.block) else temp)
  {
    assert b.Node? ==> b.block in b.Blocks();
    assert path != Top ==> path.block in path.Blocks();
    KeysOutside(path, h.key, h.min, h.max);
  }

  /** Turning right keeps what the pointers hold. */
  lemma RightPivotHolds(h: Links, g: Links, a: Shape<Block>, temp: Block, d: bool, b: Shape<Block>, node: Block, c: bool,
                        e: Shape<Block>, path: Path<Block>)
    requires var t := Node(Node(a, temp, d, b), node, c, e); h.Holds(t, node, path) && h.InOrder(t, path)
    requires RightPivot(h, g, node, temp, path)
    ensures g.Holds(Node(a, temp, d, Node(b, node, c, e)), temp, path)
  {
    var t := Node(a, temp, d, b);
    var lo, hi := path.Lo(h.key, h.min), path.Hi(h.key, h.max);
    assert t.Blocks() <= h.nodes && b.Blocks() <= h.nodes;
    assert h.Rep(t, h.L(node), node) && t.Ordered(h.key, lo, h.key[node]);
    assert h.Rep(b, h.R(temp), temp);
    RightPivotUntouched(h, g, node, b, temp, path);
    RightPivotTurned(h, g, node, b, temp, path);
    SideHolds(h, g, a, h.L(temp), temp, lo, h.key[temp], temp, b, node, path);
    SideHolds(h, g, e, h.R(node), node, h.key[node], hi, temp, b, node, path);
    MiddleHolds(h, g, h.R(temp), temp, node, temp, b, node, path);
    AroundHolds(h, g, node, temp, h.P(node), temp, b, node, path);
    assert g.Rep(Node(b, node, c, e), node, temp);
  }

  // ---------- moving the focus, recolouring, linking ----------

  /** The pointers hold `t` at `p` with `path` around it, everything in order. */
  ghost predicate At(h: Links, t: Shape<Block>, p: Block?, path: Path<Block>) {
    h.Holds(t, p, path) && h.InOrder(t, path)
  }

  lemma ParentOfFocus(h: Links, path: Path<Block>, p: Block?, par: Block?)
    requires h.RepPath(path, p, par)
    ensures par == if path == Top then null else path.block
  {
  }

  lemma DownLeft(h: Links, l: Shape<Block>, b: Block, c: bool, r: Shape<Block>, path: Path<Block>)
    ensures At(h, Node(l, b, c, r), b, path) <==> At(h, l, h.L(b), InLeft(path, b, c, r))
  {
    Splits(h, l, b, c, r, path);
    if h.RepPath(path, b, h.P(b)) {
      ParentOfFocus(h, path, b, h.P(b));
    }
  }

  lemma DownRight(h: Links, l: Shape<Block>, b: Block, c: bool, r: Shape<Block>, path: Path<Block>)
    ensures At(h, Node(l, b, c, r), b, path) <==> At(h, r, h.R(b), InRight(path, l, b, c))
  {
    Splits(h, l, b, c, r, path);
    if h.RepPath(path, b, h.P(b)) {
      ParentOfFocus(h, path, b, h.P(b));
    }
  }

  lemma Splits(h: Links, l: Shape<Block>, b: Block, c: bool, r: Shape<Block>, path: Path<Block>)
    ensures Node(l, b, c, r).Blocks() == l.Blocks() + {b} + r.Blocks()
    ensures h.InOrder(Node(l, b, c, r), path) <==> h.InOrder(l, InLeft(path, b, c, r))
    ensures h.InOrder(Node(l, b, c, r), path) <==> h.InOrder(r, InRight(path, l, b, c))
  {
  }

  /** The focus moves up to the parent, or across to the sibling. */
  lemma Rises(h: Links, t: Shape<Block>, p: Block?, path: Path<Block>)
    requires At(h, t, p, path) && path != Top
    ensures At(h, path.Rise(t), path.block, path.up)
    ensures At(h, path.Sibling(), if path.InLeft? then h.R(path.block) else h.L(path.block), Across(path, t))
  {
    if path.InLeft? {
      DownLeft(h, t, path.block, path.red, path.right, path.up);
      DownRight(h, t, path.block, path.red, path.right, path.up);
    } else {
      DownRight(h, path.left, path.block, path.red, t, path.up);
      DownLeft(h, path.left, path.block, path.red, t, path.up);
    }
  }

  lemma FocusApart(h: Links, t: Shape<Block>, p: Block, path: Path<Block>)
    requires h.InOrder(t, path) && t.Node? && t.block == p
    ensures p !in t.left.Blocks() && p !in t.right.Blocks() && p !in path.Blocks()
  {
    KeysBetween(t.left, h.key, path.Lo(h.key, h.min), h.key[p]);
    KeysBetween(t.right, h.key, h.key[p], path.Hi(h.key, h.max));
    KeysOutside(path, h.key, h.min, h.max);
  }

  lemma DyedInOrder(h: Links, t: Shape<Block>, path: Path<Block>, v: bool)
    requires h.InOrder(t, path)
    ensures h.InOrder(t.Dyed(v), path)
  {
    assert t.Dyed(v).Blocks() == t.Blocks();
  }

  /** A new colour for the root of the subtree in focus. */
  lemma DyeHolds(h: Links, g: Links, t: Shape<Block>, p: Block, path: Path<Block>, v: bool)
    requires At(h, t, p, path) && t.Node? && g == h.(red := h.red[p := v])
    ensures At(g, t.Dyed(v), p, path)
  {
    FocusApart(h, t, p, path);
    DyedInOrder(h, t, path, v);
    hide Shape.Ordered, Path.Ordered, Shape.Blocks, Path.Blocks;
    RepFrame(h, g, t.left, h.L(p), p);
    RepFrame(h, g, t.right, h.R(p), p);
    PathFrame(h, g, path, p, if path == Top then null else path.block);
  }

  /** Only pointers of blocks changed: neither colours nor the sentinel's parent. */
  ghost predicate OnlyLinks(h: Links, g: Links) {
    g == h.(root := g.root, left := g.left, right := g.right, parent := g.parent) && g.P(h.nil) == h.P(h.nil)
  }

  lemma LeftRotatedAt(h: Links, a: Shape<Block>, node: Block, c: bool, b: Shape<Block>, up: Block, d: bool,
                      e: Shape<Block>, child: Block, path: Path<Block>)
    requires At(h, Node(a, node, c, Node(b, up, d, e)), node, path)
    requires child == if b.Leaf? then h.nil else b.block
    ensures At(LeftRotated(h, node, up, child, path), Node(Node(a, node, c, b), up, d, e), up, path)
    ensures OnlyLinks(h, LeftRotated(h, node, up, child, path))
  {
    var t := Node(b, up, d, e);
    assert h.Rep(t, h.R(node), node) && t.Ordered(h.key, h.key[node], path.Hi(h.key, h.max));
    assert h.Rep(b, h.L(up), up);
    TurnedKeys(h, node, node, b, up, path);
    assert b.Node? ==> Turned(b.block, node, up, b, path);
    assert path != Top ==> Turned(path.block, node, up, b, path);
    LeftRotatedPivots(h, node, up, child, path);
    LeftPivotHolds(h, LeftRotated(h, node, up, child, path), a, node, c, b, up, d, e, path);
    TurnedBlocks(a, node, c, b, up, d, e);
  }

  lemma RightRotatedAt(h: Links, a: Shape<Block>, up: Block, d: bool, b: Shape<Block>, node: Block, c: bool,
                       e: Shape<Block>, child: Block, path: Path<Block>)
    requires At(h, Node(Node(a, up, d, b), node, c, e), node, path)
    requires child == if b.Leaf? then h.nil else b.block
    ensures At(RightRotated(h, node, up, child, path), Node(a, up, d, Node(b, node, c, e)), up, path)
    ensures OnlyLinks(h, RightRotated(h, node, up, child, path))
  {
    var t := Node(a, up, d, b);
    assert h.Rep(t, h.L(node), node) && t.Ordered(h.key, path.Lo(h.key, h.min), h.key[node]);
    assert h.Rep(b, h.R(up), up);
    TurnedKeys(h, node, up, b, node, path);
    assert b.Node? ==> Turned(b.block, up, node, b, path);
    assert path != Top ==> Turned(path.block, up, node, b, path);
    RightRotatedPivots(h, node, up, child, path);
    RightPivotHolds(h, RightRotated(h, node, up, child, path), a, up, d, b, node, c, e, path);
    TurnedBlocks(a, up, d, b, node, c, e);
  }

  lemma TurnedBlocks(a: Shape<Block>, x: Block, c: bool, b: Shape<Block>, y: Block, d: bool, e: Shape<Block>)
    ensures Node(a, x, c, Node(b, y, d, e)).Blocks() == Node(Node(a, x, c, b), y, d, e).Blocks()
  {
    assert Node(b, y, d, e).Blocks() == b.Blocks() + {y} + e.Blocks();
    assert Node(a, x, c, b).Blocks() == a.Blocks() + {x} + b.Blocks();
  }

  // ---------- insertion ----------

  /** The links once `block`, red and without children, hangs below the empty place at the end of `path`. */
  ghost function LinkedLinks(h: Links, block: Block, path: Path<Block>): Links
    requires path != Top
  {
    h.(nodes := h.nodes + {block}, parent := h.parent[block := path.block], red := h.red[block := true],
       left := (if path.InLeft? then h.left[path.block := block] else h.left)[block := h.nil],
       right := (if path.InRight? then h.right[path.block := block] else h.right)[block := h.nil])
  }

  ghost predicate Linked(h: Links, g: Links, block: Block, path: Path<Block>) {
    path != Top && block !in h.nodes && g == LinkedLinks(h, block, path)
  }

  lemma LinkedKeeps(h: Links, g: Links, block: Block, path: Path<Block>)
    requires Linked(h, g, block, path) && block != h.nil
    ensures g.nodes == h.nodes + {block} && g.key == h.key && g.C(g.nil) == h.C(h.nil)
  {
  }

  lemma LeafBlocks(block: Block)
    ensures Node(Leaf, block, true, Leaf).Blocks() == {block}
  {
    var leaf: Shape<Block> := Leaf;
    assert leaf.Blocks() == {};
  }

  lemma LinkedLeaf(h: Links, g: Links, block: Block, path: Path<Block>)
    requires h.InOrder(Leaf, path) && Linked(h, g, block, path) && block != h.nil
    requires block in h.key && path.Lo(h.key, h.min) < h.key[block] < path.Hi(h.key, h.max)
    ensures g.InOrder(Node(Leaf, block, true, Leaf), path)
    ensures g.Rep(Node(Leaf, block, true, Leaf), block, path.block)
  {
    var leaf: Shape<Block>, t := Leaf, Node(Leaf, block, true, Leaf);
    assert leaf.Blocks() == {} && t.Blocks() == {block};
    assert leaf.Ordered(h.key, path.Lo(h.key, h.min), h.key[block]);
    assert leaf.Ordered(h.key, h.key[block], path.Hi(h.key, h.max));
    assert g.Rep(leaf, g.L(block), block) && g.Rep(leaf, g.R(block), block);
  }

  lemma LinkedAround(h: Links, g: Links, block: Block, path: Path<Block>)
    requires At(h, Leaf, h.nil, path) && Linked(h, g, block, path)
    ensures g.RepPath(path, block, path.block)
  {
    var up := path.block;
    assert up in path.Blocks() && up in h.nodes;
    assert forall n :: n in h.nodes && n != up ==> h.SameAt(g, n);
    assert g.P(up) == h.P(up) && g.C(up) == h.C(up);
    hide Shape.Blocks, Shape.Ordered;
    PathMoved(h, g, path, h.nil, up, block);
  }

  lemma LinkedAt(h: Links, g: Links, block: Block, path: Path<Block>)
    requires At(h, Leaf, h.nil, path) && Linked(h, g, block, path) && block != h.nil
    requires block in h.key && path.Lo(h.key, h.min) < h.key[block] < path.Hi(h.key, h.max)
    ensures At(g, Node(Leaf, block, true, Leaf), block, path)
  {
    LinkedLeaf(h, g, block, path);
    LinkedAround(h, g, block, path);
  }

  // ---------- the whole tree ----------

  /** Seen from the root. */
  lemma {:induction false} PlugAt(h: Links, t: Shape<Block>, p: Block?, path: Path<Block>)
    requires At(h, t, p, path)
    ensures At(h, path.Plug(t), h.root, Top)
    decreases path
  {
    if path != Top {
      Rises(h, t, p, path);
      PlugAt(h, path.Rise(t), path.block, path.up);
    }
  }

  /** The pointers hold a red-black search tree of exactly the blocks in `nodes`; empty places look black. */
  ghost predicate IsRedBlack(h: Links, t: Shape<Block>) {
    At(h, t, h.root, Top) && RedBlackTree(t, h.key, h.min, h.max) && h.nodes == t.Blocks() && !h.C(h.nil)
  }

  /** Painting the root black completes an insertion. */
  lemma BlackRoot(h: Links, g: Links, t: Shape<Block>, p: Block?, path: Path<Block>)
    requires At(h, t, p, path) && Growing(t, path) && !path.Red() && t.Blocks() + path.Blocks() == h.nodes
    requires g == h.(red := h.red[h.root := false]) && !h.C(h.nil)
    ensures IsRedBlack(g, path.Plug(t).Dyed(false))
  {
    var w := path.Plug(t);
    PlugAt(h, t, p, path);
    PlugOrdered(t, path, h.key, h.min, h.max);
    if path != Top {
      PlugRedBlack(t, path);
    }
    PlugNode(t, path);
    DyeHolds(h, g, w, h.root, Top, false);
    assert w.Dyed(false).Blocks() == w.Blocks();
    assert w.Balanced() && w.NoRedRed();
  }

  lemma {:induction false} PlugNode(t: Shape<Block>, path: Path<Block>)
    requires t.Node?
    ensures path.Plug(t).Node?
    decreases path
  {
    if path != Top {
      PlugNode(path.Rise(t), path.up);
    }
  }

  // ---------- a new number ----------

  /** The same pointers with the number `k` noted for a block not in the tree. */
  ghost function Noted(h: Links, block: Block, k: int): Links {
    h.(key := h.key[block := k], min := if k <= h.min then k - 1 else h.min, max := if k >= h.max then k + 1 else h.max)
  }

  lemma NotedAt(h: Links, t: Shape<Block>, block: Block, k: int)
    requires IsRedBlack(h, t) && block !in h.nodes
    ensures IsRedBlack(Noted(h, block, k), t)
    ensures Noted(h, block, k).min < k < Noted(h, block, k).max
  {
    var g := Noted(h, block, k);
    OrderedWiden(t, h.key, h.min, h.max, g.key, g.min, g.max);
    RepFrame(h, g, t, h.root, null);
  }

  lemma SingleBlock(g: Links, block: Block)
    requires g.nodes == {block} && block != g.nil && g.root == block && !g.C(g.nil)
    requires g.P(block) == null && g.L(block) == g.nil && g.R(block) == g.nil && !g.C(block)
    requires block in g.key && g.min < g.key[block] < g.max
    ensures IsRedBlack(g, Node(Leaf, block, false, Leaf))
  {
    var leaf: Shape<Block>, t := Leaf, Node(Leaf, block, false, Leaf);
    assert leaf.Blocks() == {} && t.Blocks() == {block};
    assert leaf.Ordered(g.key, g.min, g.key[block]) && leaf.Ordered(g.key, g.key[block], g.max);
    assert g.Rep(leaf, g.nil, block);
    assert leaf.Balanced() && leaf.NoRedRed();
  }

  lemma EmptyRoot(h: Links, t: Shape<Block>)
    requires IsRedBlack(h, t)
    ensures h.root == h.nil <==> t == Leaf
    ensures t == Leaf ==> h.nodes == {}
    ensures t.Node? ==> h.root == t.block && h.root in h.nodes
  {
    if t.Node? {
      assert t.block in t.Blocks();
    }
  }

  lemma RootFits(t: Shape<Block>, key: map<Block, int>, min: int, max: int)
    requires RedBlackTree(t, key, min, max)
    ensures Fits(t, Top)
  {
  }

  // ---------- around a focus that may be an empty place ----------

  lemma Pointed(h: Links, t: Shape<Block>, p: Block?, path: Path<Block>)
    requires At(h, t, p, path)
    ensures p == if t == Leaf then h.nil else t.block
  {
  }

  /** Back from the sibling `s`, which may have changed. */
  lemma SiblingBack(h: Links, s: Shape<Block>, p: Block?, t: Shape<Block>, temp: Block?, path: Path<Block>)
    requires path != Top && At(h, s, p, Across(path, t)) && temp == if t == Leaf then h.nil else t.block
    ensures At(h, t, temp, WithSibling(path, s))
  {
    Rises(h, s, p, Across(path, t));
    Pointed(h, t, if path.InLeft? then h.L(path.block) else h.R(path.block), WithSibling(path, s));
  }

  /** `path` with the parent in another colour. */
  function InColour(path: Path<Block>, v: bool): Path<Block>
    requires path != Top
  {
    if path.InLeft? then InLeft(path.up, path.block, v, path.right) else InRight(path.up, path.left, path.block, v)
  }

  /** A new colour for the parent of the focus. */
  lemma DyeParent(h: Links, g: Links, t: Shape<Block>, p: Block?, path: Path<Block>, v: bool)
    requires At(h, t, p, path) && path != Top && g == h.(red := h.red[path.block := v])
    ensures At(g, t, p, InColour(path, v))
  {
    Rises(h, t, p, path);
    DyeHolds(h, g, path.Rise(t), path.block, path.up, v);
    if path.InLeft? {
      DownLeft(g, t, path.block, v, path.right, path.up);
    } else {
      DownRight(g, path.left, path.block, v, t, path.up);
    }
    Pointed(h, t, p, path);
    Pointed(g, t, if path.InLeft? then g.L(path.block) else g.R(path.block), InColour(path, v));
  }

  /** A new colour for the sibling of the focus. */
  lemma DyeSibling(h: Links, g: Links, t: Shape<Block>, p: Block?, path: Path<Block>, v: bool)
    requires At(h, t, p, path) && path != Top && path.Sibling().Node? && g == h.(red := h.red[path.Sibling().block := v])
    ensures At(g, t, p, WithSibling(path, path.Sibling().Dyed(v)))
  {
    var s := path.Sibling();
    Rises(h, t, p, path);
    Pointed(h, s, if path.InLeft? then h.R(path.block) else h.L(path.block), Across(path, t));
    DyeHolds(h, g, s, s.block, Across(path, t), v);
    Pointed(h, t, p, path);
    SiblingBack(g, s.Dyed(v), s.block, t, p, path);
  }

  /** A new colour for a child of the focus. */
  lemma DyeLeft(h: Links, g: Links, l: Shape<Block>, p: Block, c: bool, r: Shape<Block>, path: Path<Block>, v: bool)
    requires At(h, Node(l, p, c, r), p, path) && l.Node? && g == h.(red := h.red[l.block := v])
    ensures At(g, Node(l.Dyed(v), p, c, r), p, path)
  {
    DownLeft(h, l, p, c, r, path);
    Pointed(h, l, h.L(p), InLeft(path, p, c, r));
    DyeHolds(h, g, l, l.block, InLeft(path, p, c, r), v);
    DownLeft(g, l.Dyed(v), p, c, r, path);
  }

  lemma DyeRight(h: Links, g: Links, l: Shape<Block>, p: Block, c: bool, r: Shape<Block>, path: Path<Block>, v: bool)
    requires At(h, Node(l, p, c, r), p, path) && r.Node? && g == h.(red := h.red[r.block := v])
    ensures At(g, Node(l, p, c, r.Dyed(v)), p, path)
  {
    DownRight(h, l, p, c, r, path);
    Pointed(h, r, h.R(p), InRight(path, l, p, c));
    DyeHolds(h, g, r, r.block, InRight(path, l, p, c), v);
    DownRight(g, l, p, c, r.Dyed(v), path);
  }

  /** Painting the focus black completes a removal. */
  lemma BlackFocus(h: Links, g: Links, t: Shape<Block>, p: Block, path: Path<Block>)
    requires At(h, t, p, path) && Deficit(t, path) && (t.Red() || path == Top) && t.Blocks() + path.Blocks() == h.nodes
    requires g == h.(red := h.red[p := false]) && !h.C(h.nil)
    ensures IsRedBlack(g, path.Plug(t.Dyed(false)))
  {
    Pointed(h, t, p, path);
    if t.Node? {
      DyeHolds(h, g, t, p, path, false);
    }
    DeficitPainted(t, path);
    FitsIsRedBlack(g, t.Dyed(false), p, path);
  }

  /** A focus that fits, seen from the root. */
  lemma FitsIsRedBlack(h: Links, t: Shape<Block>, p: Block, path: Path<Block>)
    requires At(h, t, p, path) && Fits(t, path) && t.Blocks() + path.Blocks() == h.nodes && !h.C(h.nil)
    ensures IsRedBlack(h, path.Plug(t))
  {
    PlugAt(h, t, p, path);
    PlugOrdered(t, path, h.key, h.min, h.max);
    PlugRedBlack(t, path);
  }

  /** The whole tree once the deficit is settled below `path.up`. */
  lemma SettledWhole(h: Links, t: Shape<Block>, w: Block, path: Path<Block>)
    requires Deficit(t, path) && !t.Red() && path != Top && path.Sibling().Node? && !path.Sibling().Red() && FarNephew(path).Red()
    requires At(h, Settled(t, path), w, path.up)
    ensures var u := path.up.Plug(Settled(t, path)); var top: Path<Block> := Top;
            At(h, u, h.root, top) && Deficit(u, top) && u.Blocks() + top.Blocks() == t.Blocks() + path.Blocks()
  {
    SettledFits(t, path);
    PlugAt(h, Settled(t, path), w, path.up);
    FitsWhole(Settled(t, path), path.up);
    PlugOrdered(Settled(t, path), path.up, h.key, h.min, h.max);
  }

  // ---------- removal: unlinking and standing in ----------

  /** Every block has its place. */
  lemma {:induction false} Locate(h: Links, t: Shape<Block>, p: Block?, path: Path<Block>, n: Block)
    returns (u: Shape<Block>, q: Path<Block>)
    requires At(h, t, p, path) && Fits(t, path) && n in t.Blocks()
    ensures At(h, u, n, q) && u.Node? && u.block == n && Fits(u, q) && u.Blocks() + q.Blocks() == t.Blocks() + path.Blocks()
    decreases t
  {
    if t.block == n {
      u, q := t, path;
    } else {
      FitsBelow(t.left, t.block, t.red, t.right, path);
      DownLeft(h, t.left, t.block, t.red, t.right, path);
      DownRight(h, t.left, t.block, t.red, t.right, path);
      if n in t.left.Blocks() {
        u, q := Locate(h, t.left, h.L(t.block), InLeft(path, t.block, t.red, t.right), n);
      } else {
        u, q := Locate(h, t.right, h.R(t.block), InRight(path, t.left, t.block, t.red), n);
      }
    }
  }

  /** The child that remains when a block with an empty side goes. */
  function Heir(m: Shape<Block>): Shape<Block>
    requires m.Node?
  {
    if m.left == Leaf then m.right else m.left
  }

  /** The writes that put `temp` in the place of a block at the end of `q`; the parent noted for it is `par`. */
  ghost function Unlinked(h: Links, temp: Block, par: Block?, q: Path<Block>): Links {
    h.(root := if q == Top then temp else h.root,
       left := if q.InLeft? then h.left[q.block := temp] else h.left,
       right := if q.InRight? then h.right[q.block := temp] else h.right,
       parent := h.parent[temp := par])
  }

  lemma HeirInOrder(h: Links, m: Shape<Block>, q: Path<Block>)
    requires h.InOrder(m, q) && m.Node? && (m.left == Leaf || m.right == Leaf)
    ensures h.InOrder(Heir(m), q) && m.Blocks() == Heir(m).Blocks() + {m.block}
    ensures forall n :: n in Heir(m).Blocks() ==> n !in q.Blocks() && n != m.block
    ensures m.block !in q.Blocks()
  {
    var leaf: Shape<Block> := Leaf;
    assert leaf.Blocks() == {};
    var lo, hi := q.Lo(h.key, h.min), q.Hi(h.key, h.max);
    OrderedWiden(Heir(m), h.key, if m.left == Leaf then h.key[m.block] else lo, if m.left == Leaf then hi else h.key[m.block], h.key, lo, hi);
    FocusApart(h, m, m.block, q);
    KeysBetween(Heir(m), h.key, lo, hi);
    KeysOutside(q, h.key, h.min, h.max);
  }

  lemma UnlinkedAt(h: Links, m: Shape<Block>, subst: Block, temp: Block, par: Block?, q: Path<Block>)
    requires At(h, m, subst, q) && m.Node? && (m.left == Leaf || m.right == Leaf)
    requires temp == if Heir(m) == Leaf then h.nil else Heir(m).block
    ensures var g := Unlinked(h, temp, par, q);
            && g.Rep(Heir(m), temp, par) && g.RepPath(q, temp, if q == Top then null else q.block) && g.InOrder(Heir(m), q)
  {
    var g := Unlinked(h, temp, par, q);
    HeirInOrder(h, m, q);
    UnlinkedHeir(h, m, subst, temp, par, q);
    UnlinkedAround(h, m, subst, temp, par, q);
  }

  lemma UnlinkedHeir(h: Links, m: Shape<Block>, subst: Block, temp: Block, par: Block?, q: Path<Block>)
    requires At(h, m, subst, q) && m.Node? && (m.left == Leaf || m.right == Leaf)
    requires temp == if Heir(m) == Leaf then h.nil else Heir(m).block
    ensures Unlinked(h, temp, par, q).Rep(Heir(m), temp, par)
  {
    var g, t := Unlinked(h, temp, par, q), Heir(m);
    HeirInOrder(h, m, q);
    assert h.Rep(m.left, h.L(subst), subst) && h.Rep(m.right, h.R(subst), subst);
    assert h.Rep(t, temp, subst);
    assert q != Top ==> q.block in q.Blocks();
    assert t.Node? ==> temp in t.Blocks();
    assert forall n :: n in t.Blocks() && n != temp ==> h.SameAt(g, n);
    RepMoved(h, g, t, temp, subst, par, q.Lo(h.key, h.min), q.Hi(h.key, h.max));
  }

  lemma UnlinkedAround(h: Links, m: Shape<Block>, subst: Block, temp: Block, par: Block?, q: Path<Block>)
    requires At(h, m, subst, q) && m.Node? && (m.left == Leaf || m.right == Leaf)
    requires temp == if Heir(m) == Leaf then h.nil else Heir(m).block
    ensures Unlinked(h, temp, par, q).RepPath(q, temp, if q == Top then null else q.block)
  {
    var g, t := Unlinked(h, temp, par, q), Heir(m);
    HeirInOrder(h, m, q);
    assert q != Top ==> q.block in q.Blocks();
    assert t.Node? ==> temp in t.Blocks();
    assert forall n :: n in q.Blocks() && n != q.block ==> h.SameAt(g, n);
    PathMoved(h, g, q, subst, if q == Top then null else q.block, temp);
  }

  /** From `h` to `g`, `y` took the place of `x`. */
  ghost predicate StandsIn(h: Links, g: Links, x: Block, y: Block, p: Path<Block>) {
    && g.nil == h.nil && g.nodes == h.nodes && g.key == h.key && g.min == h.min && g.max == h.max
    && g.root == (if p == Top then y else h.root)
    && g.L(y) == h.L(x) && g.R(y) == h.R(x) && g.P(y) == h.P(x) && g.C(y) == h.C(x)
    && (forall n {:trigger g.L(n)} :: n in h.nodes && n != y ==> g.L(n) == if p.InLeft? && n == p.block then y else h.L(n))
    && (forall n {:trigger g.R(n)} :: n in h.nodes && n != y ==> g.R(n) == if p.InRight? && n == p.block then y else h.R(n))
    && (forall n {:trigger g.P(n)} :: n in h.nodes && n != y ==> g.P(n) == if n == h.L(x) || n == h.R(x) then y else h.P(n))
    && (forall n {:trigger g.C(n)} :: n in h.nodes && n != y ==> g.C(n) == h.C(n))
  }

  /** `y` may take the place of `x`: it is nowhere in the tree, and its number lies between the children's. */
  ghost predicate Fitting(h: Links, l: Shape<Block>, x: Block, c: bool, r: Shape<Block>, y: Block, p: Path<Block>) {
    && h.InOrder(Node(l, x, c, r), p) && h.InOrder(Node(l, y, c, r), p)
    && y !in l.Blocks() && y !in r.Blocks() && y !in p.Blocks()
  }

  /** A child's subtree stays, below its new parent. */
  lemma StandsInChild(h: Links, g: Links, t: Shape<Block>, a: Block?, par: Block?, x: Block, y: Block, p: Path<Block>, lo: int, hi: int)
    requires StandsIn(h, g, x, y, p) && h.Rep(t, a, par) && t.Ordered(h.key, lo, hi) && t.Blocks() <= h.nodes
    requires y !in t.Blocks() && (p != Top ==> p.block !in t.Blocks())
    requires forall n :: n in t.Blocks() && n != a ==> n != h.L(x) && n != h.R(x)
    requires a == h.L(x) || a == h.R(x)
    ensures g.Rep(t, a, y)
  {
    assert t.Node? ==> a in t.Blocks();
    RepMoved(h, g, t, a, par, y, lo, hi);
  }

  lemma StandsInAround(h: Links, g: Links, x: Block, y: Block, p: Path<Block>, par: Block?)
    requires StandsIn(h, g, x, y, p) && h.RepPath(p, x, par) && p.Ordered(h.key, h.min, h.max) && p.Blocks() <= h.nodes
    requires y !in p.Blocks()
    requires forall n :: n in p.Blocks() ==> n != h.L(x) && n != h.R(x)
    ensures g.RepPath(p, y, par)
  {
    assert p != Top ==> p.block in p.Blocks();
    PathMoved(h, g, p, x, par, y);
  }

  lemma StandsInAt(h: Links, g: Links, l: Shape<Block>, x: Block, c: bool, r: Shape<Block>, y: Block, p: Path<Block>, parR: Block?)
    requires Fitting(h, l, x, c, r, y, p) && StandsIn(h, g, x, y, p) && h.C(x) == c
    requires h.Rep(l, h.L(x), x) && h.Rep(r, h.R(x), parR) && h.RepPath(p, x, h.P(x))
    ensures At(g, Node(l, y, c, r), y, p)
  {
    var lo, hi := p.Lo(h.key, h.min), p.Hi(h.key, h.max);
    KeysBetween(l, h.key, lo, h.key[x]);
    KeysBetween(r, h.key, h.key[x], hi);
    KeysOutside(p, h.key, h.min, h.max);
    assert l.Node? ==> h.L(x) in l.Blocks();
    assert r.Node? ==> h.R(x) in r.Blocks();
    assert p != Top ==> p.block in p.Blocks();
    StandsInChild(h, g, l, h.L(x), x, x, y, p, lo, h.key[x]);
    StandsInChild(h, g, r, h.R(x), parR, x, y, p, h.key[x], hi);
    StandsInAround(h, g, x, y, p, h.P(x));
    ParentOfFocus(h, p, x, h.P(x));
  }

  // ---------- removal: down the left spine and back ----------

  lemma {:induction false} SpineDown(h: Links, r: Shape<Block>, p: Block?, base: Path<Block>)
    requires At(h, r, p, base) && r.Node?
    ensures At(h, Least(r), Least(r).block, Spine(r, base))
    decreases r
  {
    if r.left == Leaf {
      Pointed(h, r, p, base);
    } else {
      DownLeft(h, r.left, r.block, r.red, r.right, base);
      SpineDown(h, r.left, h.L(r.block), InLeft(base, r.block, r.red, r.right));
    }
  }

  lemma {:induction false} BeheadedDown(h: Links, r: Shape<Block>, p: Block?, base: Path<Block>)
    requires r.Node? && At(h, Beheaded(r), p, base)
    ensures var t := Least(r).right; At(h, t, if t == Leaf then h.nil else t.block, Spine(r, base))
    decreases r
  {
    if r.left == Leaf {
      Pointed(h, r.right, p, base);
    } else {
      DownLeft(h, Beheaded(r.left), r.block, r.red, r.right, base);
      BeheadedDown(h, r.left, h.L(r.block), InLeft(base, r.block, r.red, r.right));
    }
  }

  lemma {:induction false} BeheadedUp(h: Links, r: Shape<Block>, temp: Block?, base: Path<Block>)
    requires r.Node? && At(h, Least(r).right, temp, Spine(r, base))
    ensures At(h, Beheaded(r), if r.left == Leaf then temp else r.block, base)
    decreases r
  {
    if r.left != Leaf {
      BeheadedUp(h, r.left, temp, InLeft(base, r.block, r.red, r.right));
      Rises(h, Beheaded(r.left), if r.left.left == Leaf then temp else r.left.block, InLeft(base, r.block, r.red, r.right));
    }
  }

  lemma {:induction false} SpineHead(r: Shape<Block>, base: Path<Block>, base': Path<Block>)
    requires r.Node? && r.left != Leaf
    ensures Spine(r, base) != Top && Spine(r, base') != Top && Spine(r, base).block == Spine(r, base').block
    decreases r
  {
    if r.left.left != Leaf {
      SpineHead(r.left, InLeft(base, r.block, r.red, r.right), InLeft(base', r.block, r.red, r.right));
    }
  }

  /** The path to what is left of the least block of `r`, below a block `x` with `l` on its left. */
  function Below(l: Shape<Block>, x: Block, c: bool, r: Shape<Block>, p: Path<Block>): (q: Path<Block>)
    requires r.Node?
    ensures q != Top
  {
    Spine(r, InRight(p, l, x, c))
  }

  /** Where everything is when the least block of `r` is unlinked and `x` still stands. */
  lemma Orphaned(h: Links, g: Links, l: Shape<Block>, x: Block, c: bool, r: Shape<Block>, p: Path<Block>, temp: Block, par: Block?)
    requires At(h, Node(l, x, c, r), x, p) && r.Node? && temp == if Least(r).right == Leaf then h.nil else Least(r).right.block
    requires par == if r.left == Leaf then Least(r).block else Below(l, x, c, r, p).block
    requires g == Unlinked(h, temp, par, Below(l, x, c, r, p))
    ensures g.C(x) == c && g.Rep(l, g.L(x), x) && g.RepPath(p, x, g.P(x))
    ensures g.Rep(Beheaded(r), g.R(x), if r.left == Leaf then par else x)
  {
    var base, q := InRight(p, l, x, c), Below(l, x, c, r, p);
    DownRight(h, l, x, c, r, p);
    SpineDown(h, r, h.R(x), base);
    UnlinkedAt(h, Least(r), Least(r).block, temp, par, q);
    if r.left != Leaf {
      SpineHead(r, base, base);
      assert At(g, Least(r).right, temp, q);
      BeheadedUp(g, r, temp, base);
    }
    assert g.RepPath(base, g.R(x), x);
  }

  lemma LeastFitting(h: Links, l: Shape<Block>, x: Block, c: bool, r: Shape<Block>, p: Path<Block>)
    requires h.InOrder(Node(l, x, c, r), p) && r.Node?
    ensures Fitting(h, l, x, c, Beheaded(r), Least(r).block, p)
    ensures r.Blocks() == Beheaded(r).Blocks() + {Least(r).block}
  {
    var lo, hi, y := p.Lo(h.key, h.min), p.Hi(h.key, h.max), Least(r).block;
    LeastOrdered(r, h.key, h.key[x], hi);
    KeysBetween(Beheaded(r), h.key, h.key[y], hi);
    KeysBetween(l, h.key, lo, h.key[x]);
    KeysOutside(p, h.key, h.min, h.max);
    OrderedWiden(Beheaded(r), h.key, h.key[y], hi, h.key, h.key[x], hi);
    OrderedWiden(l, h.key, lo, h.key[x], h.key, lo, h.key[y]);
  }

  /** The least block of `r` in the place of `x`, ... */
  lemma Replaced(h: Links, h1: Links, g: Links, l: Shape<Block>, x: Block, c: bool, r: Shape<Block>, p: Path<Block>, temp: Block, par: Block?)
    requires At(h, Node(l, x, c, r), x, p) && r.Node? && temp == if Least(r).right == Leaf then h.nil else Least(r).right.block
    requires par == if r.left == Leaf then Least(r).block else Below(l, x, c, r, p).block
    requires h1 == Unlinked(h, temp, par, Below(l, x, c, r, p)) && StandsIn(h1, g, x, Least(r).block, p)
    ensures At(g, Node(l, Least(r).block, c, Beheaded(r)), Least(r).block, p)
  {
    Orphaned(h, h1, l, x, c, r, p, temp, par);
    LeastFitting(h, l, x, c, r, p);
    FittingMoves(h, h1, l, x, c, Beheaded(r), Least(r).block, p);
    hide *;
    StandsInAt(h1, g, l, x, c, Beheaded(r), Least(r).block, p, if r.left == Leaf then par else x);
  }

  lemma FittingMoves(h: Links, g: Links, l: Shape<Block>, x: Block, c: bool, r: Shape<Block>, y: Block, p: Path<Block>)
    requires Fitting(h, l, x, c, r, y, p) && g.key == h.key && g.min == h.min && g.max == h.max && g.nodes == h.nodes && g.nil == h.nil
    ensures Fitting(g, l, x, c, r, y, p)
  {
  }

  /** ... and what it left behind is in focus. */
  lemma Succeeded(h: Links, h1: Links, g: Links, l: Shape<Block>, x: Block, c: bool, r: Shape<Block>, p: Path<Block>, temp: Block, par: Block?)
    requires At(h, Node(l, x, c, r), x, p) && r.Node? && temp == if Least(r).right == Leaf then h.nil else Least(r).right.block
    requires par == if r.left == Leaf then Least(r).block else Below(l, x, c, r, p).block
    requires h1 == Unlinked(h, temp, par, Below(l, x, c, r, p))
    requires StandsIn(h1, g, x, Least(r).block, p) && g.P(g.nil) == h1.P(h1.nil)
    ensures var q := Below(l, Least(r).block, c, r, p); At(g, Least(r).right, temp, q) && g.P(temp) == q.block
  {
    Replaced(h, h1, g, l, x, c, r, p, temp, par);
    HeadBelow(l, x, c, r, p);
    SucceededDown(g, l, Least(r).block, c, r, p, temp, par);
  }

  lemma SucceededDown(g: Links, l: Shape<Block>, y: Block, c: bool, r: Shape<Block>, p: Path<Block>, temp: Block, par: Block?)
    requires r.Node? && At(g, Node(l, y, c, Beheaded(r)), y, p) && par == Below(l, y, c, r, p).block
    requires temp == if Least(r).right == Leaf then g.nil else Least(r).right.block
    requires temp == g.nil ==> g.P(temp) == par
    ensures var q := Below(l, y, c, r, p); At(g, Least(r).right, temp, q) && g.P(temp) == q.block
  {
    DownRight(g, l, y, c, Beheaded(r), p);
    BeheadedDown(g, r, g.R(y), InRight(p, l, y, c));
    HeldBelow(g, Least(r).right, temp, Below(l, y, c, r, p), par);
  }

  lemma HeadBelow(l: Shape<Block>, x: Block, c: bool, r: Shape<Block>, p: Path<Block>)
    requires r.Node?
    ensures Below(l, Least(r).block, c, r, p).block == if r.left == Leaf then Least(r).block else Below(l, x, c, r, p).block
  {
    if r.left != Leaf {
      SpineHead(r, InRight(p, l, Least(r).block, c), InRight(p, l, x, c));
    }
  }

  lemma HeldBelow(g: Links, t: Shape<Block>, temp: Block, q: Path<Block>, par: Block?)
    requires At(g, t, temp, q) && q != Top && (t == Leaf ==> g.P(temp) == par && par == q.block)
    ensures g.P(temp) == q.block
  {
  }

  /** The writes that put `y` in the place of `x`: its fields, ... */
  ghost function TookFields(h: Links, x: Block, y: Block): Links {
    h.(left := h.left[y := h.L(x)], right := h.right[y := h.R(x)], parent := h.parent[y := h.P(x)], red := h.red[y := h.C(x)])
  }

  /** ... the pointer to it, ... */
  ghost function TookPlace(h: Links, y: Block, p: Path<Block>): Links {
    h.(root := if p == Top then y else h.root,
       left := if p.InLeft? then h.left[p.block := y] else h.left,
       right := if p.InRight? then h.right[p.block := y] else h.right)
  }

  /** ... and its children. */
  ghost function TookChildren(h: Links, y: Block, l: Block, r: Block): Links {
    var parent := if l == h.nil then h.parent else h.parent[l := y];
    h.(parent := if r == h.nil then parent else parent[r := y])
  }

  lemma TookOver(h: Links, x: Block, y: Block, p: Path<Block>, l: Block, r: Block)
    requires l == h.L(x) && r == h.R(x) && h.nil !in h.nodes && x != y && y != l && y != r && y != h.nil
    requires p != Top ==> p.block != y
    ensures var g := TookChildren(TookPlace(TookFields(h, x, y), y, p), y, l, r);
            StandsIn(h, g, x, y, p) && g.P(h.nil) == h.P(h.nil) && g.C(h.nil) == h.C(h.nil)
  {
    var g := TookChildren(TookPlace(TookFields(h, x, y), y, p), y, l, r);
    TookParent(h, x, y, p, l, r, y);
    TookParent(h, x, y, p, l, r, h.nil);
    forall n | n in h.nodes && n != y
      ensures g.P(n) == if n == l || n == r then y else h.P(n)
    {
      TookParent(h, x, y, p, l, r, n);
    }
    TookLinks(h, x, y, p, l, r);
  }

  lemma TookParent(h: Links, x: Block, y: Block, p: Path<Block>, l: Block, r: Block, n: Block)
    requires y != l && y != r
    ensures TookChildren(TookPlace(TookFields(h, x, y), y, p), y, l, r).P(n) ==
            if n == y then h.P(x) else if n != h.nil && (n == l || n == r) then y else h.P(n)
  {
  }

  lemma TookLinks(h: Links, x: Block, y: Block, p: Path<Block>, l: Block, r: Block)
    requires p != Top ==> p.block != y
    ensures var g := TookChildren(TookPlace(TookFields(h, x, y), y, p), y, l, r);
            && g.L(y) == h.L(x) && g.R(y) == h.R(x) && g.C(y) == h.C(x)
            && (forall n {:trigger g.L(n)} :: n in h.nodes && n != y ==> g.L(n) == if p.InLeft? && n == p.block then y else h.L(n))
            && (forall n {:trigger g.R(n)} :: n in h.nodes && n != y ==> g.R(n) == if p.InRight? && n == p.block then y else h.R(n))
            && (forall n {:trigger g.C(n)} :: n != y ==> g.C(n) == h.C(n))
  {
  }

  /** A block leaves: the rest is where it was. */
  lemma {:induction false} LeavesAt(h: Links, t: Shape<Block>, p: Block?, path: Path<Block>, x: Block)
    requires At(h, t, p, path) && t.Blocks() + path.Blocks() == h.nodes - {x}
    ensures At(h.(nodes := h.nodes - {x}), t, p, path)
  {
    var g := h.(nodes := h.nodes - {x});
    RepFrame(h, g, t, p, if path == Top then null else path.block);
    PathFrame(h, g, path, p, if path == Top then null else path.block);
  }

  /** What the least block of `r`, in the place of `x`, leaves behind fits or is one black block short. */
  lemma SucceededFits(h: Links, l: Shape<Block>, x: Block, c: bool, r: Shape<Block>, p: Path<Block>)
    requires h.InOrder(Node(l, x, c, r), p) && r.Node? && Fits(Node(l, x, c, r), p)
    ensures var m, q := Least(r), Below(l, Least(r).block, c, r, p);
            && (if m.red then Fits(m.right, q) else Deficit(m.right, q))
            && m.right.Blocks() + q.Blocks() == Node(l, x, c, r).Blocks() + p.Blocks() - {x}
  {
    var m, y := Least(r), Least(r).block;
    var base, q := InRight(p, l, y, c), Below(l, y, c, r, p);
    FocusApart(h, Node(l, x, c, r), x, p);
    LeastFitting(h, l, x, c, r, p);
    assert Fits(Node(l, y, c, r), p);
    FitsBelow(l, y, c, r, p);
    SpineFits(r, base);
    TakenOut(Leaf, y, m.red, m.right, q);
    SpineHolds(r, base, y);
    assert m.Blocks() == {y} + m.right.Blocks();
    assert base.Blocks() == p.Blocks() + {y} + l.Blocks();
  }

  lemma {:induction false} SpineHolds(r: Shape<Block>, base: Path<Block>, y: Block)
    requires r.Node? && y in base.Blocks()
    ensures y in Spine(r, base).Blocks()
    decreases r
  {
    if r.left != Leaf {
      SpineHolds(r.left, InLeft(base, r.block, r.red, r.right), y);
    }
  }

  /** The parent of the least block of `r` is `x` itself exactly if `r` has nothing on its left. */
  lemma {:induction false} HeadOfSpine(r: Shape<Block>, base: Path<Block>)
    requires r.Node? && r.left != Leaf
    ensures Spine(r, base) != Top && Spine(r, base).block in r.Blocks()
    decreases r
  {
    if r.left.left != Leaf {
      HeadOfSpine(r.left, InLeft(base, r.block, r.red, r.right));
    }
  }

  /** Everything about the removal of `x` by way of the least block of `r`, `h` to `h1` to `g`, once `x` has left. */
  lemma ThickCut(h: Links, h1: Links, g: Links, l: Shape<Block>, x: Block, c: bool, r: Shape<Block>, p: Path<Block>, temp: Block, par: Block?)
    requires At(h, Node(l, x, c, r), x, p) && Fits(Node(l, x, c, r), p) && r.Node?
    requires temp == (if Least(r).right == Leaf then h.nil else Least(r).right.block) && Node(l, x, c, r).Blocks() + p.Blocks() == h.nodes
    requires par == if r.left == Leaf then Least(r).block else Below(l, x, c, r, p).block
    requires h1 == Unlinked(h, temp, par, Below(l, x, c, r, p))
    requires StandsIn(h1, g, x, Least(r).block, p) && g.P(g.nil) == h1.P(h1.nil)
    ensures var q, k := Below(l, Least(r).block, c, r, p), g.(nodes := g.nodes - {x});
            && At(k, Least(r).right, temp, q) && k.P(temp) == q.block && Least(r).right.Blocks() + q.Blocks() == k.nodes
            && if Least(r).red then Fits(Least(r).right, q) else Deficit(Least(r).right, q)
  {
    Succeeded(h, h1, g, l, x, c, r, p, temp, par);
    SucceededFits(h, l, x, c, r, p);
    assert g.nodes == h.nodes;
    hide *;
    LeavesAt(g, Least(r).right, temp, Below(l, Least(r).block, c, r, p), x);
    LeavesParent(g, temp, x);
  }

  lemma LeavesParent(g: Links, temp: Block, x: Block)
    ensures g.(nodes := g.nodes - {x}).P(temp) == g.P(temp)
  {
  }
}
