/** Red-black trees as values, the paths that lead into them, and what it means for a web of pointers to
    hold such a tree at such a path. */
module RedBlack {

  /** A subtree. */
  datatype Shape<B> = Leaf | Node(left: Shape, block: B, red: bool, right: Shape) {
    ghost function Blocks(): set<B> {
      if Leaf? then {} else left.Blocks() + {block} + right.Blocks()
    }

    /** A search tree by `key`, every key strictly between `lo` and `hi`. */
    ghost predicate Ordered(key: map<B, int>, lo: int, hi: int) {
      Node? ==>
        && block in key && lo < key[block] < hi
        && left.Ordered(key, lo, key[block]) && right.Ordered(key, key[block], hi)
    }

    predicate Red() {
      Node? && red
    }

    /** The number of black blocks on the way down, the same on every way if the tree is balanced. */
    function Height(): nat {
      if Leaf? then 0 else left.Height() + if red then 0 else 1
    }

    ghost predicate Balanced() {
      Node? ==> left.Balanced() && right.Balanced() && left.Height() == right.Height()
    }

    ghost predicate NoRedRed() {
      Node? ==> left.NoRedRed() && right.NoRedRed() && !(red && (left.Red() || right.Red()))
    }

    function Dyed(v: bool): Shape<B> {
      if Leaf? then Leaf else Node(left, block, v, right)
    }
  }

  /** What surrounds a subtree: `InLeft` is the way to the left child of `block`. */
  datatype Path<B> =
    | Top
    | InLeft(up: Path, block: B, red: bool, right: Shape<B>)
    | InRight(up: Path, left: Shape<B>, block: B, red: bool)
  {
    ghost function Blocks(): set<B> {
      match this
      case Top => {}
      case InLeft(up, b, _, r) => up.Blocks() + {b} + r.Blocks()
      case InRight(up, l, b, _) => up.Blocks() + {b} + l.Blocks()
    }

    function Sibling(): Shape<B>
      requires !Top?
    {
      if InLeft? then right else left
    }

    /** What surrounds the subtree is ordered, and leaves it the keys between `Lo` and `Hi`. */
    ghost predicate Ordered(key: map<B, int>, min: int, max: int) {
      if Top? then min < max
      else
        && up.Ordered(key, min, max)
        && block in key && up.Lo(key, min) < key[block] < up.Hi(key, max)
        && if InLeft? then right.Ordered(key, key[block], up.Hi(key, max)) else left.Ordered(key, up.Lo(key, min), key[block])
    }

    ghost function Lo(key: map<B, int>, min: int): int {
      match this
      case Top => min
      case InLeft(up, _, _, _) => up.Lo(key, min)
      case InRight(_, _, b, _) => if b in key then key[b] else 0
    }

    ghost function Hi(key: map<B, int>, max: int): int {
      match this
      case Top => max
      case InLeft(_, b, _, _) => if b in key then key[b] else 0
      case InRight(up, _, _, _) => up.Hi(key, max)
    }

    /** The path around the parent's subtree is `up`; this is that subtree with `t` in place. */
    function Rise(t: Shape<B>): (r: Shape<B>)
      requires !Top?
      ensures r.Node? && r.block == block
    {
      if InLeft? then Node(t, block, red, right) else Node(left, block, red, t)
    }

    /** The whole tree with `t` in place. */
    function Plug(t: Shape<B>): Shape<B> {
      if Top? then t else up.Plug(Rise(t))
    }

    /** Everything around a subtree of black height `h` is balanced. */
    ghost predicate Balanced(h: nat) {
      !Top? ==>
        && Sibling().Balanced() && Sibling().Height() == h
        && up.Balanced(h + if red then 0 else 1)
    }

    /** No red block on the path has a red parent or a red child beside the path; the topmost is black. */
    ghost predicate NoRedRed() {
      !Top? ==>
        && Sibling().NoRedRed() && up.NoRedRed()
        && (red ==> !Sibling().Red() && !up.Top? && !up.red)
    }

    predicate Red() {
      !Top? && red
    }
  }

  /** The whole is a red-black search tree. */
  ghost predicate RedBlackTree<B>(t: Shape<B>, key: map<B, int>, min: int, max: int) {
    t.Ordered(key, min, max) && t.Balanced() && t.NoRedRed() && !t.Red()
  }

  lemma {:induction false} KeysBetween<B>(t: Shape<B>, key: map<B, int>, lo: int, hi: int)
    requires t.Ordered(key, lo, hi)
    ensures forall n :: n in t.Blocks() ==> n in key && lo < key[n] < hi
  {
    if t.Node? {
      KeysBetween(t.left, key, lo, key[t.block]);
      KeysBetween(t.right, key, key[t.block], hi);
    }
  }

  lemma {:induction false} KeysOutside<B>(path: Path<B>, key: map<B, int>, min: int, max: int)
    requires path.Ordered(key, min, max)
    ensures min <= path.Lo(key, min) < path.Hi(key, max) <= max
    ensures forall n :: n in path.Blocks() ==>
              n in key && min < key[n] < max && (key[n] <= path.Lo(key, min) || path.Hi(key, max) <= key[n])
    decreases path
  {
    if path != Top {
      KeysOutside(path.up, key, min, max);
      if path.InLeft? {
        KeysBetween(path.right, key, key[path.block], path.up.Hi(key, max));
      } else {
        KeysBetween(path.left, key, path.up.Lo(key, min), key[path.block]);
      }
    }
  }

  // ---------- plugging ----------

  lemma {:induction false} PlugOrdered<B>(t: Shape<B>, path: Path<B>, key: map<B, int>, min: int, max: int)
    requires path.Ordered(key, min, max) && t.Ordered(key, path.Lo(key, min), path.Hi(key, max))
    ensures path.Plug(t).Ordered(key, min, max)
    ensures path.Plug(t).Blocks() == t.Blocks() + path.Blocks()
    decreases path
  {
    if path != Top {
      PlugOrdered(path.Rise(t), path.up, key, min, max);
    }
  }

  /** A subtree of the height its path expects, not red below a red parent, completes a balanced tree. */
  lemma {:induction false} PlugRedBlack<B>(t: Shape<B>, path: Path<B>)
    requires t.Balanced() && path.Balanced(t.Height()) && t.NoRedRed() && path.NoRedRed()
    requires t.Red() ==> !path.Red() && path != Top
    ensures var w := path.Plug(t); w.Balanced() && w.NoRedRed() && !w.Red()
    decreases path
  {
    if path != Top {
      PlugRedBlack(path.Rise(t), path.up);
    }
  }

  function Depth<B>(path: Path<B>): nat {
    if path.Top? then 0 else 1 + Depth(path.up)
  }

  /** The path to what was the sibling of the subtree `t`. */
  function Across<B>(path: Path<B>, t: Shape<B>): Path<B>
    requires path != Top
  {
    if path.InLeft? then InRight(path.up, t, path.block, path.red) else InLeft(path.up, path.block, path.red, t)
  }

  // ---------- insertion ----------

  /** A red subtree that is right in itself, in surroundings that are right in themselves: all that can be
      wrong is that its parent is red too. */
  ghost predicate Growing<B>(t: Shape<B>, path: Path<B>) {
    t.Red() && t.Balanced() && t.NoRedRed() && path.Balanced(t.Height()) && path.NoRedRed()
  }

  /** The subtree of the grandparent once parent and uncle are black and the grandparent is red. */
  function Recoloured<B>(t: Shape<B>, path: Path<B>): Shape<B>
    requires path != Top && path.up != Top
  {
    var parent := path.Rise(t).Dyed(false);
    var uncle := path.up.Sibling().Dyed(false);
    if path.up.InLeft? then Node(parent, path.up.block, true, uncle) else Node(uncle, path.up.block, true, parent)
  }

  lemma RecolouredGrows<B>(t: Shape<B>, path: Path<B>)
    requires Growing(t, path) && path.Red() && path.up.Sibling().Red()
    ensures Growing(Recoloured(t, path), path.up.up)
    ensures Recoloured(t, path).Blocks() + path.up.up.Blocks() == t.Blocks() + path.Blocks()
  {
    var parent, uncle := path.Rise(t).Dyed(false), path.up.Sibling().Dyed(false);
    assert parent.Blocks() == t.Blocks() + {path.block} + path.Sibling().Blocks();
    assert uncle.Blocks() == path.up.Sibling().Blocks();
    assert path.up.Balanced(t.Height()) && path.up.NoRedRed();
    assert parent.Balanced() && parent.Height() == t.Height() + 1;
    assert uncle.Balanced() && uncle.Height() == t.Height() + 1;
  }

  /** The place of `t` once the parent, made black, has risen above the grandparent, made red; `t` and the
      uncle's subtree stand at the outside. */
  function Risen<B>(t: Shape<B>, path: Path<B>): Path<B>
    requires path != Top && path.up != Top
  {
    if path.InLeft? then
      InLeft(path.up.up, path.block, false, Node(path.right, path.up.block, true, path.up.Sibling()))
    else
      InRight(path.up.up, Node(path.up.Sibling(), path.up.block, true, path.left), path.block, false)
  }

  lemma RisenGrows<B>(t: Shape<B>, path: Path<B>)
    requires Growing(t, path) && path.Red() && !path.up.Sibling().Red()
    requires path.InLeft? == path.up.InLeft?
    ensures Growing(t, Risen(t, path))
    ensures Risen(t, path).Blocks() == path.Blocks()
  {
    var g := if path.InLeft? then Node(path.right, path.up.block, true, path.up.Sibling())
             else Node(path.up.Sibling(), path.up.block, true, path.left);
    assert path.up.Balanced(t.Height()) && path.up.NoRedRed();
    assert g.Balanced() && g.Height() == t.Height() && g.NoRedRed();
    assert g.Blocks() == path.Sibling().Blocks() + {path.up.block} + path.up.Sibling().Blocks();
  }

  /** An inner grandchild `t` changes places with its parent, which becomes the subtree in focus. */
  function Outward<B>(t: Shape<B>, path: Path<B>): (Shape<B>, Path<B>)
    requires path != Top && t.Node?
  {
    if path.InRight? then
      (Node(path.left, path.block, path.red, t.left), InLeft(path.up, t.block, t.red, t.right))
    else
      (Node(t.right, path.block, path.red, path.right), InRight(path.up, t.left, t.block, t.red))
  }

  lemma OutwardGrows<B>(t: Shape<B>, path: Path<B>)
    requires Growing(t, path) && path.Red()
    ensures var (u, q) := Outward(t, path);
            Growing(u, q) && q.Red() && q.up == path.up && u.Blocks() + q.Blocks() == t.Blocks() + path.Blocks()
  {
    var (u, q) := Outward(t, path);
    assert t.Blocks() == t.left.Blocks() + {t.block} + t.right.Blocks();
  }

  // ---------- the focus inside a red-black tree ----------

  /** A subtree and its surroundings fit together to a red-black tree. */
  ghost predicate Fits<B>(t: Shape<B>, path: Path<B>) {
    && t.Balanced() && path.Balanced(t.Height()) && t.NoRedRed() && path.NoRedRed()
    && (t.Red() ==> path != Top && !path.Red())
  }

  lemma FitsBelow<B>(l: Shape<B>, b: B, c: bool, r: Shape<B>, path: Path<B>)
    requires Fits(Node(l, b, c, r), path)
    ensures Fits(l, InLeft(path, b, c, r)) && Fits(r, InRight(path, l, b, c))
  {
  }

  /** A tree stays ordered under wider bounds and a key map that agrees on its blocks. */
  lemma {:induction false} OrderedWiden<B>(t: Shape<B>, key: map<B, int>, lo: int, hi: int, key': map<B, int>, lo': int, hi': int)
    requires t.Ordered(key, lo, hi) && lo' <= lo && hi <= hi'
    requires forall n :: n in t.Blocks() && n in key ==> n in key' && key'[n] == key[n]
    ensures t.Ordered(key', lo', hi')
  {
    if t.Node? {
      OrderedWiden(t.left, key, lo, key[t.block], key', lo', key[t.block]);
      OrderedWiden(t.right, key, key[t.block], hi, key', key[t.block], hi');
    }
  }

  // ---------- removal ----------

  /** A subtree one black block too low for its surroundings. Its root may still be a red block between
      red neighbours: it is about to be painted black. */
  ghost predicate Deficit<B>(t: Shape<B>, path: Path<B>) {
    && t.Balanced() && path.Balanced(t.Height() + 1) && t.Dyed(false).NoRedRed() && path.NoRedRed()
  }

  lemma DeficitSibling<B>(t: Shape<B>, path: Path<B>)
    requires Deficit(t, path) && path != Top
    ensures path.Sibling().Node? && path.Sibling().Height() == t.Height() + 1
    ensures path.Sibling().Red() ==> path.Sibling().left.Node? && path.Sibling().right.Node? && !path.red
    ensures var w := path.Sibling(); w.Balanced() && w.NoRedRed() && w.left.Balanced() && w.right.Balanced()
    ensures var w := path.Sibling(); !w.red ==> w.left.Height() == w.right.Height() == t.Height()
  {
    var w := path.Sibling();
    assert w.Height() == t.Height() + 1 && w.Balanced();
  }

  lemma RedChildren<B>(n: Shape<B>)
    requires n.Red() && n.Balanced() && n.NoRedRed()
    ensures n.left.Balanced() && n.right.Balanced() && n.left.Height() == n.right.Height() == n.Height()
    ensures !n.left.Red() && !n.right.Red() && n.left.NoRedRed() && n.right.NoRedRed()
    ensures n.Dyed(false).Balanced() && n.Dyed(false).NoRedRed() && n.Dyed(false).Height() == n.Height() + 1
  {
  }

  /** Painting the root of the low subtree black ends the search, if it is red or the whole tree. */
  lemma DeficitPainted<B>(t: Shape<B>, path: Path<B>)
    requires Deficit(t, path) && (t.Red() || path == Top)
    ensures Fits(t.Dyed(false), path) && t.Dyed(false).Blocks() == t.Blocks()
  {
  }

  /** `path` with `sibling` in the place of its sibling. */
  function WithSibling<B>(path: Path<B>, sibling: Shape<B>): Path<B>
    requires path != Top
  {
    if path.InLeft? then InLeft(path.up, path.block, path.red, sibling) else InRight(path.up, sibling, path.block, path.red)
  }

  /** The path once the sibling has risen above the parent: the new sibling is the near nephew. */
  function Hoisted<B>(path: Path<B>): Path<B>
    requires path != Top && path.Sibling().Node?
  {
    var w := path.Sibling();
    if path.InLeft? then InLeft(InLeft(path.up, w.block, w.red, w.right), path.block, path.red, w.left)
    else InRight(InRight(path.up, w.left, w.block, w.red), w.right, path.block, path.red)
  }

  /** The path once a red sibling has risen above the parent: the parent is red, the new sibling was a nephew. */
  function Lowered<B>(path: Path<B>): Path<B>
    requires path != Top && path.Sibling().Node?
  {
    var w := path.Sibling();
    if path.InLeft? then InLeft(InLeft(path.up, w.block, false, w.right), path.block, true, w.left)
    else InRight(InRight(path.up, w.left, w.block, false), w.right, path.block, true)
  }

  lemma LoweredDeficit<B>(t: Shape<B>, path: Path<B>)
    requires Deficit(t, path) && !t.Red() && path != Top && path.Sibling().Red()
    ensures var q := Lowered(path);
            && Deficit(t, q) && q.Red() && !q.Sibling().Red() && q.InLeft? == path.InLeft?
            && Depth(q) == Depth(path) + 1 && q.Blocks() == path.Blocks()
  {
    DeficitSibling(t, path);
    var w := path.Sibling();
    assert w.Blocks() == w.left.Blocks() + {w.block} + w.right.Blocks();
    var q := Lowered(path);
    assert q.up.Balanced(t.Height() + 1) && q.up.NoRedRed();
    assert q.up.Blocks() == path.up.Blocks() + {w.block} + (if path.InLeft? then w.right else w.left).Blocks();
  }

  /** The parent's subtree once the sibling, whose children are black, has turned red. */
  function Absorbed<B>(t: Shape<B>, path: Path<B>): Shape<B>
    requires path != Top
  {
    WithSibling(path, path.Sibling().Dyed(true)).Rise(t)
  }

  lemma AbsorbedDeficit<B>(t: Shape<B>, path: Path<B>)
    requires Deficit(t, path) && !t.Red() && path != Top && !path.Sibling().Red()
    requires path.Sibling().Node? ==> !path.Sibling().left.Red() && !path.Sibling().right.Red()
    ensures var u := Absorbed(t, path);
            Deficit(u, path.up) && u.Red() == path.red && u.Blocks() + path.up.Blocks() == t.Blocks() + path.Blocks()
  {
    DeficitSibling(t, path);
    var w := path.Sibling();
    assert w.Dyed(true).Blocks() == w.Blocks();
    assert w.Dyed(true).Balanced() && w.Dyed(true).Height() == t.Height();
    assert w.Dyed(true).NoRedRed();
    assert t.Dyed(false) == t;
  }

  /** The nephew on the same side as the subtree, and the one on the other side. */
  function NearNephew<B>(path: Path<B>): Shape<B>
    requires path != Top && path.Sibling().Node?
  {
    if path.InLeft? then path.right.left else path.left.right
  }

  function FarNephew<B>(path: Path<B>): Shape<B>
    requires path != Top && path.Sibling().Node?
  {
    if path.InLeft? then path.right.right else path.left.left
  }

  /** The path once the near nephew, made black, has risen above the sibling, made red. */
  function Swapped<B>(path: Path<B>): Path<B>
    requires path != Top && path.Sibling().Node? && NearNephew(path).Node?
  {
    var w, n := path.Sibling(), NearNephew(path);
    if path.InLeft? then WithSibling(path, Node(n.left, n.block, false, Node(n.right, w.block, true, w.right)))
    else WithSibling(path, Node(Node(w.left, w.block, true, n.left), n.block, false, n.right))
  }

  lemma SwappedDeficit<B>(t: Shape<B>, path: Path<B>)
    requires Deficit(t, path) && !t.Red() && path != Top && path.Sibling().Node? && !path.Sibling().Red()
    requires NearNephew(path).Red() && !FarNephew(path).Red()
    ensures var q := Swapped(path);
            && Deficit(t, q) && q.Sibling().Node? && !q.Sibling().Red() && FarNephew(q).Red() && q.Blocks() == path.Blocks()
  {
    var w, n := path.Sibling(), NearNephew(path);
    assert w.Blocks() == w.left.Blocks() + {w.block} + w.right.Blocks();
    assert n.Blocks() == n.left.Blocks() + {n.block} + n.right.Blocks();
    DeficitSibling(t, path);
    RedChildren(n);
    var v := Swapped(path).Sibling();
    var x := if path.InLeft? then v.right else v.left;
    assert x.Blocks() + {n.block} + (if path.InLeft? then n.left else n.right).Blocks() == w.Blocks();
    assert v.Blocks() == w.Blocks();
    assert x.Balanced() && x.Height() == t.Height() && x.NoRedRed();
    assert v.Balanced() && v.Height() == t.Height() + 1 && v.NoRedRed();
  }

  /** The colours before the last rotation: the sibling in the parent's colour, parent and far nephew black. */
  function Repainted<B>(path: Path<B>): Path<B>
    requires path != Top && path.Sibling().Node?
  {
    var w := path.Sibling();
    if path.InLeft? then InLeft(path.up, path.block, false, Node(w.left, w.block, path.red, w.right.Dyed(false)))
    else InRight(path.up, Node(w.left.Dyed(false), w.block, path.red, w.right), path.block, false)
  }

  /** The subtree that ends the search: the sibling above the parent, in the parent's colour, both its
      children black. */
  function Settled<B>(t: Shape<B>, path: Path<B>): Shape<B>
    requires path != Top && path.Sibling().Node?
  {
    var w := path.Sibling();
    if path.InLeft? then Node(Node(t, path.block, false, w.left), w.block, path.red, w.right.Dyed(false))
    else Node(w.left.Dyed(false), w.block, path.red, Node(w.right, path.block, false, t))
  }

  lemma SettledFits<B>(t: Shape<B>, path: Path<B>)
    requires Deficit(t, path) && !t.Red() && path != Top && path.Sibling().Node? && !path.Sibling().Red() && FarNephew(path).Red()
    ensures Fits(Settled(t, path), path.up)
    ensures Settled(t, path).Blocks() + path.up.Blocks() == t.Blocks() + path.Blocks()
  {
    var w, f := path.Sibling(), FarNephew(path).Dyed(false);
    DeficitSibling(t, path);
    RedChildren(FarNephew(path));
    assert t.Dyed(false) == t;
    assert f.Blocks() == FarNephew(path).Blocks();
    assert w.Blocks() == w.left.Blocks() + {w.block} + w.right.Blocks();
    var x := if path.InLeft? then Node(t, path.block, false, w.left) else Node(w.right, path.block, false, t);
    assert x.Balanced() && x.Height() == t.Height() + 1 && x.NoRedRed();
    assert f.Balanced() && f.Height() == t.Height() + 1 && f.NoRedRed();
  }

  /** A tree that fits, seen from the root, is one to paint black there. */
  lemma FitsWhole<B>(t: Shape<B>, path: Path<B>)
    requires Fits(t, path)
    ensures var w := path.Plug(t); Deficit(w, Top) && Fits(w, Top)
  {
    PlugRedBlack(t, path);
  }

  // ---------- taking a block out ----------

  /** The path to the leftmost block of `t`. */
  function Spine<B>(t: Shape<B>, path: Path<B>): (q: Path<B>)
    requires t.Node?
    ensures path != Top ==> q != Top
  {
    if t.left == Leaf then path else Spine(t.left, InLeft(path, t.block, t.red, t.right))
  }

  /** The leftmost block, with what is to its right. */
  function Least<B>(t: Shape<B>): (m: Shape<B>)
    requires t.Node?
    ensures m.Node? && m.left == Leaf
  {
    if t.left == Leaf then t else Least(t.left)
  }

  /** `t` without its leftmost block. */
  function Beheaded<B>(t: Shape<B>): Shape<B>
    requires t.Node?
  {
    if t.left == Leaf then t.right else Node(Beheaded(t.left), t.block, t.red, t.right)
  }

  lemma {:induction false} LeastOrdered<B>(t: Shape<B>, key: map<B, int>, lo: int, hi: int)
    requires t.Node? && t.Ordered(key, lo, hi)
    ensures var m := Least(t).block; m in t.Blocks() && m in key && lo < key[m] < hi && Beheaded(t).Ordered(key, key[m], hi)
    ensures Beheaded(t).Blocks() + {Least(t).block} == t.Blocks()
    ensures Beheaded(t).Blocks() <= t.Blocks()
  {
    if t.left != Leaf {
      LeastOrdered(t.left, key, lo, key[t.block]);
    }
  }

  /** On the way to the leftmost block everything keeps fitting. */
  lemma {:induction false} SpineFits<B>(t: Shape<B>, path: Path<B>)
    requires t.Node? && Fits(t, path)
    ensures Fits(Least(t), Spine(t, path))
    ensures Least(t).Blocks() + Spine(t, path).Blocks() == t.Blocks() + path.Blocks()
  {
    if t.left != Leaf {
      FitsBelow(t.left, t.block, t.red, t.right, path);
      SpineFits(t.left, InLeft(path, t.block, t.red, t.right));
    }
  }

  /** Taking a red block with one empty side out leaves a tree that fits, a black one leaves a deficit. */
  lemma TakenOut<B>(l: Shape<B>, b: B, c: bool, r: Shape<B>, path: Path<B>)
    requires Fits(Node(l, b, c, r), path) && (l == Leaf || r == Leaf)
    ensures var t := if l == Leaf then r else l; if c then Fits(t, path) else Deficit(t, path)
  {
    var t := if l == Leaf then r else l;
    assert t.NoRedRed();
    assert t.Node? ==> t.left.NoRedRed() && t.right.NoRedRed();
  }
}
