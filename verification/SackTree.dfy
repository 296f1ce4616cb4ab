/** The red-black tree of src/udx_sack_tree.c: parent pointers, a sentinel for every missing child, and an
    order on wrapped 32-bit sequence numbers. */
module SackTree {
  import opened SeqArith
  import opened RedBlack
  import opened SackLinks

  class Tree {
    var root: Block
    const sentinel: Block
    /** The pointers and colours of all blocks in the tree, and the true number each block starts at. */
    ghost var h: Links
    /** The shape the pointers have. */
    ghost var tree: Shape<Block>

    /** A red-black search tree by true start, whose colours, order and links are those of the fields. */
    ghost predicate Valid()
      reads this, h.nodes`left, h.nodes`right, h.nodes`parent, h.nodes`red, h.nodes`start, sentinel`parent, sentinel`red
    {
      Mirror() && IsRedBlack(h, tree) && Placed(h.nodes, h.key)
    }

    /** The blocks in the tree. */
    ghost function Blocks(): set<Block>
      reads this
    {
      h.nodes
    }

    /** The true number a block starts at. */
    ghost function Start(n: Block): int
      reads this
      requires n in h.key
    {
      h.key[n]
    }

    /** `h` is what the fields hold. */
    ghost predicate Mirror()
      reads this`h, this`root, h.nodes`left, h.nodes`right, h.nodes`parent, h.nodes`red, sentinel`parent, sentinel`red
    {
      && h.nil == sentinel && h.root == root && sentinel !in h.nodes
      && (forall n {:trigger n in h.nodes} :: n in h.nodes ==>
            && n in h.left && n in h.right && n in h.parent && n in h.red
            && h.left[n] == n.left && h.right[n] == n.right && h.parent[n] == n.parent && h.red[n] == n.red)
      && sentinel in h.parent && h.parent[sentinel] == sentinel.parent
      && sentinel in h.red && h.red[sentinel] == sentinel.red
    }

    method SetLeft(n: Block, v: Block?)
      requires Mirror() && n in h.nodes
      modifies this`h, n`left
      ensures Mirror() && h == old(h).(left := old(h).left[n := v])
    {
      n.left := v;
      h := h.(left := h.left[n := v]);
    }

    method SetRight(n: Block, v: Block?)
      requires Mirror() && n in h.nodes
      modifies this`h, n`right
      ensures Mirror() && h == old(h).(right := old(h).right[n := v])
    {
      n.right := v;
      h := h.(right := h.right[n := v]);
    }

    method SetParent(n: Block, v: Block?)
      requires Mirror() && (n in h.nodes || n == sentinel)
      modifies this`h, n`parent
      ensures Mirror() && h == old(h).(parent := old(h).parent[n := v])
    {
      n.parent := v;
      h := h.(parent := h.parent[n := v]);
    }

    /** `rbt_red`, `rbt_black` and `rbt_copy_color`. */
    method SetRed(n: Block, v: bool)
      requires Mirror() && (n in h.nodes || n == sentinel)
      modifies this`h, n`red
      ensures Mirror() && h == old(h).(red := old(h).red[n := v])
    {
      n.red := v;
      h := h.(red := h.red[n := v]);
    }

    method SetRoot(n: Block)
      requires Mirror()
      modifies this`h, this`root
      ensures Mirror() && h == old(h).(root := n)
    {
      root := n;
      h := h.(root := n);
    }

    constructor ()
      ensures Valid() && Blocks() == {} && h.key == map[] && fresh(sentinel)
    {
      var z := new Block(0);
      sentinel, root := z, z;
      h := Links(z, z, {}, map[], map[], map[z := null], map[z := false], map[], 0, 1);
      tree := Leaf;
      new;
      sentinel.red := false;
      root.parent := null;
    }

    /** Which way the parent of the focus points at it, as the code finds out. */
    lemma WhichChild(p: Block, path: Path<Block>, t: Shape<Block>)
      requires Mirror() && At(h, t, p, path) && t.Node?
      ensures p in h.nodes && p == t.block
      ensures p == root <==> path == Top
      ensures path != Top ==>
                && p.parent == path.block && path.block in h.nodes
                && (p == path.block.left <==> path.InLeft?)
    {
      assert p in t.Blocks();
      KeysOutside(path, h.key, h.min, h.max);
      if path != Top {
        RootOnPath(h, path, p, path.block);
        assert path.block in path.Blocks();
        if path.InRight? {
          KeysBetween(path.left, h.key, path.up.Lo(h.key, h.min), h.key[path.block]);
          assert h.Rep(path.left, h.L(path.block), path.block);
          if path.left.Node? {
            assert path.left.block in path.left.Blocks();
          }
        }
      }
    }

    /** The pointer to a subtree, as the code finds it. */
    ghost function Ptr(t: Shape<Block>): Block {
      if t.Leaf? then sentinel else t.block
    }

    lemma Kids(p: Block, t: Shape<Block>, path: Path<Block>)
      requires Mirror() && At(h, t, p, path) && t.Node?
      ensures p in h.nodes && p == t.block && p.red == t.red
      ensures p.left == Ptr(t.left) && p.right == Ptr(t.right)
      ensures t.left.Node? ==> t.left.block in h.nodes && t.left.block.red == t.left.red
      ensures t.right.Node? ==> t.right.block in h.nodes && t.right.block.red == t.right.red
    {
      assert p in t.Blocks();
      assert t.left.Node? ==> t.left.block in t.left.Blocks();
      assert t.right.Node? ==> t.right.block in t.right.Blocks();
      assert h.Rep(t.left, h.L(p), p) && h.Rep(t.right, h.R(p), p);
    }

    /** `node` takes over `child` on its left. */
    method AdoptLeft(node: Block, child: Block)
      requires Mirror() && node in h.nodes && (child in h.nodes || child == sentinel)
      modifies this`h, node`left, child`parent
      ensures Mirror()
      ensures h == old(h).(left := old(h.left)[node := child],
                           parent := if child == h.nil then old(h.parent) else old(h.parent)[child := node])
    {
      SetLeft(node, child);
      if child != sentinel {
        SetParent(child, node);
      }
    }

    /** `node` takes over `child` on its right. */
    method AdoptRight(node: Block, child: Block)
      requires Mirror() && node in h.nodes && (child in h.nodes || child == sentinel)
      modifies this`h, node`right, child`parent
      ensures Mirror()
      ensures h == old(h).(right := old(h.right)[node := child],
                           parent := if child == h.nil then old(h.parent) else old(h.parent)[child := node])
    {
      SetRight(node, child);
      if child != sentinel {
        SetParent(child, node);
      }
    }

    /** `temp`, the right child of `node`, hands its left child over and takes the parent of `node`. */
    method LiftRight(node: Block, temp: Block, child: Block)
      requires Mirror() && node in h.nodes && temp in h.nodes && (child in h.nodes || child == sentinel)
      requires node != temp && child != node && child != temp && temp.left == child
      modifies this`h, node`right, child`parent, temp`parent
      ensures Mirror()
      ensures h == old(h).(right := old(h.right)[node := child],
                           parent := (if child == h.nil then old(h.parent) else old(h.parent)[child := node])[temp := old(node.parent)])
    {
      AdoptRight(node, temp.left);
      SetParent(temp, node.parent);
    }

    /** `temp`, the left child of `node`, hands its right child over and takes the parent of `node`. */
    method LiftLeft(node: Block, temp: Block, child: Block)
      requires Mirror() && node in h.nodes && temp in h.nodes && (child in h.nodes || child == sentinel)
      requires node != temp && child != node && child != temp && temp.right == child
      modifies this`h, node`left, child`parent, temp`parent
      ensures Mirror()
      ensures h == old(h).(left := old(h.left)[node := child],
                           parent := (if child == h.nil then old(h.parent) else old(h.parent)[child := node])[temp := old(node.parent)])
    {
      AdoptLeft(node, temp.right);
      SetParent(temp, node.parent);
    }

    /** `temp` takes the place of `node` below the parent of `node`, or as the root. */
    method TakePlace(node: Block, temp: Block, ghost path: Path<Block>)
      requires Mirror() && node in h.nodes && temp in h.nodes
      requires node == root <==> path == Top
      requires path != Top ==> node.parent == path.block && path.block in h.nodes && (node == path.block.left <==> path.InLeft?)
      modifies this`root, this`h, h.nodes`left, h.nodes`right, temp`parent
      ensures Mirror()
      ensures h == old(h).(
                root := if path == Top then temp else old(h.root),
                left := if path.InLeft? then old(h.left)[path.block := temp] else old(h.left),
                right := if path.InRight? then old(h.right)[path.block := temp] else old(h.right),
                parent := if path == Top then old(h.parent)[temp := null] else old(h.parent))
    {
      if node == root {
        SetRoot(temp);
        SetParent(temp, null);
      } else if node == node.parent.left {
        SetLeft(node.parent, temp);
      } else {
        SetRight(node.parent, temp);
      }
    }

    /** What the code reads before it rotates `node` left. */
    lemma LeftRotateReads(node: Block, a: Shape<Block>, c: bool, b: Shape<Block>, up: Block, d: bool, e: Shape<Block>, path: Path<Block>)
      requires Mirror() && At(h, Node(a, node, c, Node(b, up, d, e)), node, path)
      ensures node in h.nodes && up in h.nodes && node != up && node.right == up && up.left == Ptr(b)
      ensures (Ptr(b) in h.nodes || Ptr(b) == sentinel) && Ptr(b) != node && Ptr(b) != up
      ensures node == root <==> path == Top
      ensures path == Top ==> node.parent == null
      ensures path != Top ==>
                && node.parent == path.block && path.block in h.nodes && (node == path.block.left <==> path.InLeft?)
                && path.block != node && path.block != up && path.block != Ptr(b)
    {
      var t := Node(b, up, d, e);
      WhichChild(node, path, Node(a, node, c, t));
      Kids(node, Node(a, node, c, t), path);
      DownRight(h, a, node, c, t, path);
      Kids(up, t, InRight(path, a, node, c));
      TurnedKeys(h, node, node, b, up, path);
      assert b.Node? ==> Turned(b.block, node, up, b, path);
      assert path != Top ==> Turned(path.block, node, up, b, path);
    }

    /** `rbtree_left_rotate`. */
    method LeftRotate(node: Block, ghost a: Shape<Block>, ghost c: bool, ghost b: Shape<Block>, ghost up: Block, ghost d: bool,
                      ghost e: Shape<Block>, ghost path: Path<Block>)
      requires Mirror() && At(h, Node(a, node, c, Node(b, up, d, e)), node, path)
      modifies this`root, this`h, h.nodes`left, h.nodes`right, h.nodes`parent, sentinel`parent
      ensures Mirror() && h == LeftRotated(old(h), node, up, Ptr(b), path)
    {
      hide *;
      LeftRotateReads(node, a, c, b, up, d, e, path);
      LeftRotateWrites(node, path);
    }

    method LeftRotateWrites(node: Block, ghost path: Path<Block>)
      requires Mirror() && node in h.nodes && node.right != null && node.right in h.nodes && node != node.right
      requires node.right.left != null && (node.right.left in h.nodes || node.right.left == sentinel) && node.right.left != node && node.right.left != node.right
      requires node == root <==> path == Top
      requires path == Top ==> node.parent == null
      requires path != Top ==>
                 && node.parent == path.block && path.block in h.nodes && (node == path.block.left <==> path.InLeft?)
                 && path.block != node && path.block != node.right && path.block != node.right.left
      modifies this`root, this`h, h.nodes`left, h.nodes`right, h.nodes`parent, sentinel`parent
      ensures Mirror() && h == LeftRotated(old(h), node, old(node.right), old(node.right.left), path)
    {
      var temp := node.right;
      LiftRight(node, temp, temp.left);
      TakePlace(node, temp, path);
      AdoptLeft(temp, node);
    }

    /** The rotation, seen as what it does to the tree. */
    method TurnLeft(node: Block, ghost a: Shape<Block>, ghost c: bool, ghost b: Shape<Block>, ghost up: Block, ghost d: bool,
                      ghost e: Shape<Block>, ghost path: Path<Block>)
      requires Mirror() && At(h, Node(a, node, c, Node(b, up, d, e)), node, path)
      modifies this`root, this`h, h.nodes`left, h.nodes`right, h.nodes`parent, sentinel`parent
      ensures Mirror() && At(h, Node(Node(a, node, c, b), up, d, e), up, path)
      ensures OnlyLinks(old(h), h)
    {
      assert Ptr(b) == if b.Leaf? then h.nil else b.block;
      hide *;
      LeftRotatedAt(h, a, node, c, b, up, d, e, Ptr(b), path);
      LeftRotate(node, a, c, b, up, d, e, path);
    }

    /** What the code reads before it rotates `node` right. */
    lemma RightRotateReads(node: Block, a: Shape<Block>, c: bool, b: Shape<Block>, up: Block, d: bool, e: Shape<Block>, path: Path<Block>)
      requires Mirror() && At(h, Node(Node(a, up, d, b), node, c, e), node, path)
      ensures node in h.nodes && up in h.nodes && node != up && node.left == up && up.right == Ptr(b)
      ensures (Ptr(b) in h.nodes || Ptr(b) == sentinel) && Ptr(b) != node && Ptr(b) != up
      ensures node == root <==> path == Top
      ensures path == Top ==> node.parent == null
      ensures path != Top ==>
                && node.parent == path.block && path.block in h.nodes && (node == path.block.left <==> path.InLeft?)
                && path.block != node && path.block != up && path.block != Ptr(b)
    {
      var t := Node(a, up, d, b);
      WhichChild(node, path, Node(t, node, c, e));
      Kids(node, Node(t, node, c, e), path);
      DownLeft(h, t, node, c, e, path);
      Kids(up, t, InLeft(path, node, c, e));
      TurnedKeys(h, node, up, b, node, path);
      assert b.Node? ==> Turned(b.block, up, node, b, path);
      assert path != Top ==> Turned(path.block, up, node, b, path);
    }

    /** `rbtree_right_rotate`. */
    method RightRotate(node: Block, ghost a: Shape<Block>, ghost c: bool, ghost b: Shape<Block>, ghost up: Block, ghost d: bool,
                      ghost e: Shape<Block>, ghost path: Path<Block>)
      requires Mirror() && At(h, Node(Node(a, up, d, b), node, c, e), node, path)
      modifies this`root, this`h, h.nodes`left, h.nodes`right, h.nodes`parent, sentinel`parent
      ensures Mirror() && h == RightRotated(old(h), node, up, Ptr(b), path)
    {
      hide *;
      RightRotateReads(node, a, c, b, up, d, e, path);
      RightRotateWrites(node, path);
    }

    method RightRotateWrites(node: Block, ghost path: Path<Block>)
      requires Mirror() && node in h.nodes && node.left != null && node.left in h.nodes && node != node.left
      requires node.left.right != null && (node.left.right in h.nodes || node.left.right == sentinel) && node.left.right != node && node.left.right != node.left
      requires node == root <==> path == Top
      requires path == Top ==> node.parent == null
      requires path != Top ==>
                 && node.parent == path.block && path.block in h.nodes && (node == path.block.left <==> path.InLeft?)
                 && path.block != node && path.block != node.left && path.block != node.left.right
      modifies this`root, this`h, h.nodes`left, h.nodes`right, h.nodes`parent, sentinel`parent
      ensures Mirror() && h == RightRotated(old(h), node, old(node.left), old(node.left.right), path)
    {
      var temp := node.left;
      LiftLeft(node, temp, temp.right);
      TakePlace(node, temp, path);
      AdoptRight(temp, node);
    }

    /** The rotation, seen as what it does to the tree. */
    method TurnRight(node: Block, ghost a: Shape<Block>, ghost c: bool, ghost b: Shape<Block>, ghost up: Block, ghost d: bool,
                      ghost e: Shape<Block>, ghost path: Path<Block>)
      requires Mirror() && At(h, Node(Node(a, up, d, b), node, c, e), node, path)
      modifies this`root, this`h, h.nodes`left, h.nodes`right, h.nodes`parent, sentinel`parent
      ensures Mirror() && At(h, Node(a, up, d, Node(b, node, c, e)), up, path)
      ensures OnlyLinks(old(h), h)
    {
      assert Ptr(b) == if b.Leaf? then h.nil else b.block;
      hide *;
      RightRotatedAt(h, a, up, d, b, node, c, e, Ptr(b), path);
      RightRotate(node, a, c, b, up, d, e, path);
    }

    /** The red uncle: parent and uncle turn black, the grandparent red. */
    method RecolourUncle(block: Block, temp: Block, ghost t: Shape<Block>, ghost path: Path<Block>)
      requires Mirror() && At(h, t, block, path) && t.Node? && path != Top && path.up != Top
      requires path.up.Sibling().Node? && temp == path.up.Sibling().block
      modifies this`h, h.nodes`red
      ensures Mirror() && h == old(h).(red := h.red) && h.C(h.nil) == old(h).C(h.nil)
      ensures At(h, Recoloured(t, path), path.up.block, path.up.up)
    {
      ghost var h0, up := h, path.up;
      ghost var parent := path.Rise(t);
      WhichChild(block, path, t);
      Rises(h, t, block, path);
      WhichChild(path.block, up, parent);
      SetRed(block.parent, false);
      DyeHolds(h0, h, parent, path.block, up, false);
      ghost var h1, uncle := h, up.Sibling();
      Rises(h, parent.Dyed(false), path.block, up);
      UncleReads(path.block, temp, parent.Dyed(false), up);
      SetRed(temp, false);
      DyeHolds(h1, h, uncle, temp, Across(up, parent.Dyed(false)), false);
      Rises(h, uncle.Dyed(false), temp, Across(up, parent.Dyed(false)));
      ghost var h2 := h;
      SetRed(block.parent.parent, true);
      DyeHolds(h2, h, Across(up, parent.Dyed(false)).Rise(uncle.Dyed(false)), up.block, up.up, true);
    }

    lemma UncleReads(parent: Block, temp: Block, t: Shape<Block>, path: Path<Block>)
      requires Mirror() && At(h, t, parent, path) && t.Node? && path != Top
      requires path.Sibling().Node? && temp == path.Sibling().block
      ensures temp in h.nodes && path.block in h.nodes
      ensures temp == if path.InLeft? then h.R(path.block) else h.L(path.block)
    {
      Rises(h, t, parent, path);
      assert temp in path.Sibling().Blocks();
      assert path.block in path.Blocks();
    }

    // ---------- insertion ----------

    /** `rbt_red` or `rbt_black` on `block->parent`. */
    method PaintParent(block: Block, v: bool, ghost t: Shape<Block>, ghost path: Path<Block>)
      requires Mirror() && At(h, t, block, path) && t.Node? && path != Top
      modifies this`h, h.nodes`red
      ensures Mirror() && h == old(h).(red := h.red) && h.C(h.nil) == old(h).C(h.nil)
      ensures At(h, path.Rise(t).Dyed(v), path.block, path.up)
      ensures block.parent == path.block
    {
      WhichChild(block, path, t);
      Rises(h, t, block, path);
      ghost var h0 := h;
      SetRed(block.parent, v);
      DyeHolds(h0, h, path.Rise(t), path.block, path.up, v);
    }

    /** The parent in black, the grandparent in red, then the grandparent turns: `block` and its parent are
        left children. */
    method RiseRight(block: Block, ghost t: Shape<Block>, ghost path: Path<Block>)
      requires Mirror() && At(h, t, block, path) && t.Node?
      requires path.InLeft? && path.up.InLeft?
      modifies this`root, this`h, h.nodes`left, h.nodes`right, h.nodes`parent, h.nodes`red, sentinel`parent
      ensures Mirror() && h.nodes == old(h.nodes) && SameOwner(old(h), h) && At(h, t, block, Risen(t, path))
    {
      ghost var up, r := path.up, path.right;
      ghost var parent := Node(t, path.block, false, r);
      assert path.Rise(t).Dyed(false) == parent && Risen(t, path) == InLeft(up.up, path.block, false, Node(r, up.block, true, up.right));
      assert up.Rise(parent).Dyed(true) == Node(parent, up.block, true, up.right);
      hide *;
      PaintParent(block, false, t, path);
      PaintParent(block.parent, true, parent, up);
      TurnRight(block.parent.parent, t, true, r, path.block, false, up.right, up.up);
      DownLeft(h, t, path.block, false, Node(r, up.block, true, up.right), up.up);
    }

    /** The same on the other side. */
    method RiseLeft(block: Block, ghost t: Shape<Block>, ghost path: Path<Block>)
      requires Mirror() && At(h, t, block, path) && t.Node?
      requires path.InRight? && path.up.InRight?
      modifies this`root, this`h, h.nodes`left, h.nodes`right, h.nodes`parent, h.nodes`red, sentinel`parent
      ensures Mirror() && h.nodes == old(h.nodes) && SameOwner(old(h), h) && At(h, t, block, Risen(t, path))
    {
      ghost var up, l := path.up, path.left;
      ghost var parent := Node(l, path.block, false, t);
      assert path.Rise(t).Dyed(false) == parent && Risen(t, path) == InRight(up.up, Node(up.left, up.block, true, l), path.block, false);
      assert up.Rise(parent).Dyed(true) == Node(up.left, up.block, true, parent);
      hide *;
      PaintParent(block, false, t, path);
      PaintParent(block.parent, true, parent, up);
      TurnLeft(block.parent.parent, up.left, true, l, path.block, false, t, up.up);
      DownRight(h, Node(up.left, up.block, true, l), path.block, false, t, up.up);
    }

    /** An inner grandchild on the right of its parent: the parent turns left and comes into focus. */
    method TurnOutwardLeft(block: Block, ghost t: Shape<Block>, ghost path: Path<Block>) returns (parent: Block)
      requires Mirror() && At(h, t, block, path) && t.Node? && path.InRight?
      modifies this`root, this`h, h.nodes`left, h.nodes`right, h.nodes`parent, sentinel`parent
      ensures Mirror() && h.nodes == old(h.nodes) && SameOwner(old(h), h) && parent == path.block
      ensures At(h, Outward(t, path).0, parent, Outward(t, path).1)
    {
      WhichChild(block, path, t);
      Rises(h, t, block, path);
      parent := block.parent;
      ghost var l := Node(path.left, path.block, path.red, t.left);
      TurnLeft(parent, path.left, path.red, t.left, block, t.red, t.right, path.up);
      DownLeft(h, l, block, t.red, t.right, path.up);
    }

    /** An inner grandchild on the left of its parent. */
    method TurnOutwardRight(block: Block, ghost t: Shape<Block>, ghost path: Path<Block>) returns (parent: Block)
      requires Mirror() && At(h, t, block, path) && t.Node? && path.InLeft?
      modifies this`root, this`h, h.nodes`left, h.nodes`right, h.nodes`parent, sentinel`parent
      ensures Mirror() && h.nodes == old(h.nodes) && SameOwner(old(h), h) && parent == path.block
      ensures At(h, Outward(t, path).0, parent, Outward(t, path).1)
    {
      WhichChild(block, path, t);
      Rises(h, t, block, path);
      parent := block.parent;
      ghost var r := Node(t.right, path.block, path.red, path.right);
      TurnRight(parent, t.left, path.red, t.right, block, t.red, path.right, path.up);
      DownRight(h, t.left, block, t.red, r, path.up);
    }

    /** What the fix-up loops read around the focus. */
    lemma ParentReads(block: Block, t: Shape<Block>, path: Path<Block>)
      requires Mirror() && At(h, t, block, path) && t.Node? && path != Top
      ensures block in h.nodes && path.block in h.nodes && block.parent == path.block && path.block.red == path.red
      ensures path.InLeft? <==> block == path.block.left
      ensures path.InRight? ==> block == path.block.right
      ensures path.InLeft? ==> path.block.right == Ptr(path.right)
      ensures path.InRight? ==> path.block.left == Ptr(path.left)
      ensures path.Sibling().Node? ==> path.Sibling().block in h.nodes && path.Sibling().block.red == path.Sibling().red
    {
      WhichChild(block, path, t);
      Rises(h, t, block, path);
      Kids(path.block, path.Rise(t), path.up);
    }

    /** One round of the insertion loop, below a left child. */
    method GrowLeft(block: Block, ghost t: Shape<Block>, ghost path: Path<Block>)
      returns (focus: Block, ghost u: Shape<Block>, ghost q: Path<Block>)
      requires Mirror() && At(h, t, block, path) && Growing(t, path) && path.Red() && path.up.InLeft? && !h.C(h.nil)
      modifies this`root, this`h, h.nodes`left, h.nodes`right, h.nodes`parent, h.nodes`red, sentinel`parent
      ensures Mirror() && h.nodes == old(h.nodes) && SameOwner(old(h), h) && At(h, u, focus, q)
      ensures Growing(u, q) && Depth(q) < Depth(path) && u.Blocks() + q.Blocks() == t.Blocks() + path.Blocks()
    {
      ParentReads(block, t, path);
      Rises(h, t, block, path);
      ParentReads(path.block, path.Rise(t), path.up);
      var temp := block.parent.parent.right;
      if temp.red {
        RecolouredGrows(t, path);
        focus, u, q := block.parent.parent, Recoloured(t, path), path.up.up;
        RecolourUncle(block, temp, t, path);
      } else {
        focus, u, q := block, t, path;
        if block == block.parent.right {
          OutwardGrows(t, path);
          u, q := Outward(t, path).0, Outward(t, path).1;
          focus := TurnOutwardLeft(block, t, path);
        }
        RisenGrows(u, q);
        RiseRight(focus, u, q);
        q := Risen(u, q);
      }
    }

    /** One round of the insertion loop, below a right child. */
    method GrowRight(block: Block, ghost t: Shape<Block>, ghost path: Path<Block>)
      returns (focus: Block, ghost u: Shape<Block>, ghost q: Path<Block>)
      requires Mirror() && At(h, t, block, path) && Growing(t, path) && path.Red() && path.up.InRight? && !h.C(h.nil)
      modifies this`root, this`h, h.nodes`left, h.nodes`right, h.nodes`parent, h.nodes`red, sentinel`parent
      ensures Mirror() && h.nodes == old(h.nodes) && SameOwner(old(h), h) && At(h, u, focus, q)
      ensures Growing(u, q) && Depth(q) < Depth(path) && u.Blocks() + q.Blocks() == t.Blocks() + path.Blocks()
    {
      ParentReads(block, t, path);
      Rises(h, t, block, path);
      ParentReads(path.block, path.Rise(t), path.up);
      var temp := block.parent.parent.left;
      if temp.red {
        RecolouredGrows(t, path);
        focus, u, q := block.parent.parent, Recoloured(t, path), path.up.up;
        RecolourUncle(block, temp, t, path);
      } else {
        focus, u, q := block, t, path;
        if block == block.parent.left {
          OutwardGrows(t, path);
          u, q := Outward(t, path).0, Outward(t, path).1;
          focus := TurnOutwardRight(block, t, path);
        }
        RisenGrows(u, q);
        RiseLeft(focus, u, q);
        q := Risen(u, q);
      }
    }

    /** The re-balancing loop of `udx_sack_tree_insert`, and its last statement. */
    method Rebalance(block: Block, ghost t: Shape<Block>, ghost path: Path<Block>) returns (ghost w: Shape<Block>)
      requires Mirror() && At(h, t, block, path) && Growing(t, path) && !h.C(h.nil) && t.Blocks() + path.Blocks() == h.nodes
      modifies this`root, this`h, h.nodes`left, h.nodes`right, h.nodes`parent, h.nodes`red, sentinel`parent
      ensures Mirror() && IsRedBlack(h, w) && h.nodes == old(h).nodes && h.key == old(h).key
    {
      var focus := block;
      ghost var u, q := t, path;
      Looks(focus, u, q);
      while focus != root && focus.parent.red
        invariant Mirror() && h.nodes == old(h.nodes) && SameOwner(old(h), h) && At(h, u, focus, q) && Growing(u, q) && u.Blocks() + q.Blocks() == h.nodes
        invariant focus == root <==> q == Top
        invariant q != Top ==> focus.parent == q.block && q.block.red == q.red
        decreases Depth(q)
      {
        ParentReads(q.block, q.Rise(u), q.up) by {
          Rises(h, u, focus, q);
        }
        if focus.parent == focus.parent.parent.left {
          focus, u, q := GrowLeft(focus, u, q);
        } else {
          focus, u, q := GrowRight(focus, u, q);
        }
        Looks(focus, u, q);
      }
      w := q.Plug(u).Dyed(false);
      ghost var h0 := h;
      RootReads(u, focus, q);
      SetRed(root, false);
      BlackRoot(h0, h, u, focus, q);
    }

    lemma Looks(block: Block, t: Shape<Block>, path: Path<Block>)
      requires Mirror() && At(h, t, block, path) && t.Node?
      ensures block == root <==> path == Top
      ensures path != Top ==> block.parent == path.block && path.block.red == path.red
    {
      WhichChild(block, path, t);
      if path != Top {
        ParentReads(block, t, path);
      }
    }

    lemma RootReads(t: Shape<Block>, p: Block, path: Path<Block>)
      requires Mirror() && At(h, t, p, path)
      ensures root in h.nodes || root == sentinel
      ensures t.Node? ==> root in h.nodes
    {
      PlugAt(h, t, p, path);
      if path.Plug(t).Node? {
        assert root in path.Plug(t).Blocks();
      }
      if t.Node? {
        PlugNode(t, path);
      }
    }

    /** The fields of `block` as a red leaf below `par`. */
    method Enter(block: Block, par: Block?)
      requires Mirror() && block !in h.nodes && block != sentinel
      modifies this`h, block`left, block`right, block`parent, block`red
      ensures Mirror()
      ensures h == old(h).(nodes := old(h).nodes + {block}, left := old(h).left[block := old(h).nil], right := old(h).right[block := old(h).nil],
                           parent := old(h).parent[block := par], red := old(h).red[block := true])
    {
      block.parent := par;
      block.left, block.right := sentinel, sentinel;
      block.red := true;
      h := h.(nodes := h.nodes + {block}, left := h.left[block := sentinel], right := h.right[block := sentinel],
              parent := h.parent[block := par], red := h.red[block := true]);
    }

    /** The search for the place of a block starting at `k` goes one step down. */
    ghost predicate Seeks(k: int, t: Shape<Block>, p: Block?, path: Path<Block>)
      reads this
    {
      && At(h, t, p, path) && Fits(t, path) && t.Blocks() + path.Blocks() == h.nodes
      && path.Lo(h.key, h.min) < k < path.Hi(h.key, h.max)
    }

    lemma SeekDown(k: int, t: Shape<Block>, p: Block, path: Path<Block>)
      requires Mirror() && Seeks(k, t, p, path) && t.Node? && Placed(h.nodes, h.key)
      requires k != h.key[p] && Near(k, h.key[p])
      ensures p in h.nodes && p == t.block
      ensures SeqDiff(U32(k), p.start) < 0 <==> k < h.key[p]
      ensures k < h.key[p] ==> Seeks(k, t.left, p.left, DownPath(t, path, true)) && p.left == Ptr(t.left)
      ensures k > h.key[p] ==> Seeks(k, t.right, p.right, DownPath(t, path, false)) && p.right == Ptr(t.right)
    {
      Kids(p, t, path);
      SeqCompareTrue(k, h.key[p]);
      FitsBelow(t.left, p, t.red, t.right, path);
      DownLeft(h, t.left, p, t.red, t.right, path);
      DownRight(h, t.left, p, t.red, t.right, path);
    }

    lemma PtrNil(t: Shape<Block>)
      requires t.Blocks() <= h.nodes && h.nil == sentinel && sentinel !in h.nodes
      ensures Ptr(t) == sentinel <==> t == Leaf
    {
      assert t.Node? ==> t.block in t.Blocks();
    }

    /** The way down in `actual_sack_insert_fn`. */
    method Descend(block: Block, ghost k: int, ghost tree: Shape<Block>) returns (temp: Block, ghost t: Shape<Block>, ghost path: Path<Block>)
      requires Mirror() && Seeks(k, tree, root, Top) && tree.Node?
      requires block.start == U32(k)
      requires Placed(h.nodes, h.key) && (forall n :: n in h.nodes ==> k != h.key[n] && Near(k, h.key[n]))
      ensures Seeks(k, t, temp, path) && t.Node? && t.block == temp
      ensures if k < h.key[temp] then t.left == Leaf else t.right == Leaf
    {
      temp := root;
      t, path := tree, Top;
      while true
        invariant Seeks(k, t, temp, path) && t.Node?
        decreases t
      {
        Kids(temp, t, path);
        SeekDown(k, t, temp, path);
        PtrNil(t.left);
        PtrNil(t.right);
        hide *;
        if SeqDiff(block.start, temp.start) < 0 {
          if temp.left == sentinel {
            return;
          }
          temp, t, path := temp.left, t.left, DownPath(t, path, true);
        } else {
          if temp.right == sentinel {
            return;
          }
          temp, t, path := temp.right, t.right, DownPath(t, path, false);
        }
      }
    }

    lemma EmptyPlace(k: int, block: Block, p: Block?, q: Path<Block>)
      requires Seeks(k, Leaf, p, q)
      ensures At(h, Leaf, h.nil, q) && Growing(Node(Leaf, block, true, Leaf), q) && q.Blocks() == h.nodes
      ensures q.Lo(h.key, h.min) < k < q.Hi(h.key, h.max)
    {
      var leaf: Shape<Block> := Leaf;
      assert leaf.Blocks() == {};
      assert h.Rep(leaf, p, if q == Top then null else q.block);
      assert leaf.NoRedRed() && leaf.Balanced();
    }

    /** The rest of `actual_sack_insert_fn`. */
    method Hang(block: Block, temp: Block, ghost k: int, ghost t: Shape<Block>, ghost path: Path<Block>) returns (ghost q: Path<Block>)
      requires Mirror() && Seeks(k, t, temp, path) && t.Node? && t.block == temp
      requires if k < h.key[temp] then t.left == Leaf else t.right == Leaf
      requires block !in h.nodes && block != sentinel && block.start == U32(k) && block in h.key && h.key[block] == k
      requires Placed(h.nodes, h.key) && (forall n :: n in h.nodes ==> k != h.key[n] && Near(k, h.key[n]))
      modifies this`h, block`left, block`right, block`parent, block`red, h.nodes`left, h.nodes`right
      ensures Mirror() && Linked(old(h), h, block, q) && At(h, Node(Leaf, block, true, Leaf), block, q)
      ensures Growing(Node(Leaf, block, true, Leaf), q) && q.Blocks() == old(h).nodes
    {
      Kids(temp, t, path);
      SeekDown(k, t, temp, path);
      q := DownPath(t, path, k < h.key[temp]);
      EmptyPlace(k, block, if k < h.key[temp] then temp.left else temp.right, q);
      assert q.block == temp && q != Top;
      LinkedAt(h, LinkedLinks(h, block, q), block, q);
      hide *;
      HangWrites(block, temp, q);
    }

    method HangWrites(block: Block, temp: Block, ghost q: Path<Block>)
      requires Mirror() && temp in h.nodes && q != Top && q.block == temp
      requires SeqDiff(block.start, temp.start) < 0 <==> q.InLeft?
      requires block !in h.nodes && block != sentinel
      modifies this`h, block`left, block`right, block`parent, block`red, h.nodes`left, h.nodes`right
      ensures Mirror() && h == LinkedLinks(old(h), block, q)
    {
      if SeqDiff(block.start, temp.start) < 0 {
        SetLeft(temp, block);
      } else {
        SetRight(temp, block);
      }
      Enter(block, temp);
    }

    /** `udx_sack_tree_insert`: the tree gains exactly `block`, under its true number `k`. */
    method Insert(block: Block, ghost k: int)
      requires Valid() && block !in Blocks() && block != sentinel && block.start == U32(k)
      requires forall n :: n in Blocks() ==> k != Start(n) && Near(k, Start(n))
      modifies this`root, this`h, this`tree, sentinel`parent
      modifies h.nodes`left, h.nodes`right, h.nodes`parent, h.nodes`red, block`left, block`right, block`parent, block`red
      ensures Valid() && Blocks() == old(Blocks()) + {block} && h.key == old(h).key[block := k]
    {
      NotedAt(h, tree, block, k);
      h := Noted(h, block, k);
      if root == sentinel {
        InsertFirst(block, k);
      } else {
        InsertBelow(block, k);
      }
    }

    method InsertFirst(block: Block, ghost k: int)
      requires Mirror() && IsRedBlack(h, tree) && root == sentinel && block !in h.nodes && block != sentinel
      requires block.start == U32(k) && block in h.key && h.key[block] == k && h.min < k < h.max
      modifies this`root, this`h, this`tree, block`left, block`right, block`parent, block`red
      ensures Valid() && h.nodes == old(h).nodes + {block} && h.key == old(h).key
    {
      EmptyRoot(h, tree);
      hide *;
      Enter(block, null);
      SetRed(block, false);
      SetRoot(block);
      tree := Node(Leaf, block, false, Leaf);
      FirstBlock(block, k);
    }

    lemma FirstBlock(block: Block, k: int)
      requires Mirror() && h.nodes == {block} && root == block && block.parent == null && !block.red && !h.C(h.nil)
      requires block.left == sentinel && block.right == sentinel && tree == Node(Leaf, block, false, Leaf)
      requires block.start == U32(k) && block in h.key && h.key[block] == k && h.min < k < h.max
      ensures Valid()
    {
      SingleBlock(h, block);
    }

    lemma StartSeek(k: int)
      requires Mirror() && IsRedBlack(h, tree) && root != sentinel && h.min < k < h.max
      ensures Seeks(k, tree, root, Top) && tree.Node? && !h.C(h.nil) && sentinel == h.nil
    {
      EmptyRoot(h, tree);
      RootFits(tree, h.key, h.min, h.max);
    }

    /** `actual_sack_insert_fn` as a whole. */
    method Link(block: Block, ghost k: int) returns (ghost t: Shape<Block>, ghost q: Path<Block>)
      requires Mirror() && IsRedBlack(h, tree) && root != sentinel && block !in h.nodes && block != sentinel
      requires block.start == U32(k) && block in h.key && h.key[block] == k && h.min < k < h.max && Placed(h.nodes, h.key)
      requires forall n :: n in h.nodes ==> k != h.key[n] && Near(k, h.key[n])
      modifies this`h, block`left, block`right, block`parent, block`red, h.nodes`left, h.nodes`right
      ensures Mirror() && h.nodes == old(h).nodes + {block} && h.key == old(h).key && !h.C(h.nil)
      ensures At(h, t, block, q) && Growing(t, q) && t.Blocks() + q.Blocks() == h.nodes
    {
      hide *;
      ghost var h0 := h;
      StartSeek(k);
      LeafBlocks(block);
      ghost var path;
      var temp;
      temp, t, path := Descend(block, k, tree);
      q := Hang(block, temp, k, t, path);
      t := Node(Leaf, block, true, Leaf);
      LinkedKeeps(h0, h, block, q);
    }

    method InsertBelow(block: Block, ghost k: int)
      requires Mirror() && IsRedBlack(h, tree) && root != sentinel && block !in h.nodes && block != sentinel
      requires block.start == U32(k) && block in h.key && h.key[block] == k && h.min < k < h.max && Placed(h.nodes, h.key)
      requires forall n :: n in h.nodes ==> k != h.key[n] && Near(k, h.key[n])
      modifies this`root, this`h, this`tree, sentinel`parent
      modifies h.nodes`left, h.nodes`right, h.nodes`parent, h.nodes`red, block`left, block`right, block`parent, block`red
      ensures Mirror() && IsRedBlack(h, tree) && h.nodes == old(h).nodes + {block} && h.key == old(h).key
    {
      hide *;
      ghost var t, q := Link(block, k);
      tree := Rebalance(block, t, q);
    }

    // ---------- removal: the fix-up ----------

    /** The pointers hold `t` in focus, and even an empty place in focus knows its parent. */
    ghost predicate Low(t: Shape<Block>, temp: Block, path: Path<Block>)
      reads this`h
    {
      At(h, t, temp, path) && !h.C(h.nil) && (path != Top ==> h.P(temp) == path.block)
    }

    /** What the loop of `udx_sack_tree_remove` reads around the focus. */
    lemma LowReads(t: Shape<Block>, temp: Block, path: Path<Block>)
      requires Mirror() && Low(t, temp, path) && path != Top && path.Sibling().Node?
      ensures temp in h.nodes || temp == sentinel
      ensures temp.parent == path.block && path.block in h.nodes
      ensures path.InLeft? <==> temp == path.block.left
      ensures path.Sibling().block == if path.InLeft? then path.block.right else path.block.left
      ensures path.block.red == path.red
    {
      Rises(h, t, temp, path);
      Kids(path.block, path.Rise(t), path.up);
      Pointed(h, t, temp, path);
      assert t.Node? ==> temp in t.Blocks();
      SideBySide(t, path);
    }

    /** The subtree in focus and its sibling have different roots. */
    lemma SideBySide(t: Shape<Block>, path: Path<Block>)
      requires h.InOrder(t, path) && path != Top
      ensures t.Node? && path.Sibling().Node? ==> t.block != path.Sibling().block
    {
    }

    lemma SiblingReads(t: Shape<Block>, temp: Block, path: Path<Block>)
      requires Mirror() && Low(t, temp, path) && path != Top && path.Sibling().Node?
      ensures var s := path.Sibling(); var w := s.block;
              && w in h.nodes && w.red == s.red && w.left == Ptr(s.left) && w.right == Ptr(s.right)
              && w.left.red == s.left.Red() && w.right.red == s.right.Red()
    {
      var s := path.Sibling();
      Rises(h, t, temp, path);
      Pointed(h, s, if path.InLeft? then h.R(path.block) else h.L(path.block), Across(path, t));
      Kids(s.block, s, Across(path, t));
    }

    lemma FocusColour(t: Shape<Block>, temp: Block, path: Path<Block>)
      requires Mirror() && Low(t, temp, path)
      ensures temp in h.nodes || temp == sentinel
      ensures temp.red == t.Red()
      ensures temp == root <==> path == Top
    {
      Pointed(h, t, temp, path);
      if t.Node? {
        WhichChild(temp, path, t);
        Kids(temp, t, path);
      } else if path != Top {
        RootOnPath(h, path, temp, path.block);
      }
    }

    /** `rbt_red`, `rbt_black` or `rbt_copy_color` on the sibling. */
    method PaintSibling(w: Block, v: bool, ghost t: Shape<Block>, ghost temp: Block, ghost path: Path<Block>)
      requires Mirror() && Low(t, temp, path) && path != Top && path.Sibling().Node? && w == path.Sibling().block && w in h.nodes
      modifies this`h, h.nodes`red
      ensures Mirror() && h == old(h).(red := h.red) && h.C(h.nil) == old(h).C(h.nil)
      ensures Low(t, temp, WithSibling(path, path.Sibling().Dyed(v)))
    {
      ghost var h0 := h;
      assert sentinel !in h.nodes;
      hide At;
      SetRed(w, v);
      DyeSibling(h0, h, t, temp, path, v);
    }

    /** The same on the parent. */
    method PaintAbove(v: bool, ghost t: Shape<Block>, temp: Block, ghost path: Path<Block>)
      requires Mirror() && Low(t, temp, path) && path != Top && path.block in h.nodes && temp.parent == path.block
      modifies this`h, h.nodes`red
      ensures Mirror() && h == old(h).(red := h.red) && h.C(h.nil) == old(h).C(h.nil)
      ensures Low(t, temp, InColour(path, v))
    {
      ghost var h0 := h;
      hide At;
      SetRed(temp.parent, v);
      DyeParent(h0, h, t, temp, path, v);
    }

    /** `rbt_black` on the left child of the sibling. */
    method PaintLeftNephew(n: Block, v: bool, ghost t: Shape<Block>, ghost temp: Block, ghost path: Path<Block>)
      requires Mirror() && Low(t, temp, path) && path != Top && path.Sibling().Node? && path.Sibling().left.Node?
      requires n == path.Sibling().left.block && n in h.nodes
      modifies this`h, h.nodes`red
      ensures Mirror() && h == old(h).(red := h.red) && h.C(h.nil) == old(h).C(h.nil)
      ensures var s := path.Sibling(); Low(t, temp, WithSibling(path, Node(s.left.Dyed(v), s.block, s.red, s.right)))
    {
      ghost var h0, s := h, path.Sibling();
      Pointed(h, t, temp, path);
      Rises(h, t, temp, path);
      Pointed(h, s, if path.InLeft? then h.R(path.block) else h.L(path.block), Across(path, t));
      hide At;
      SetRed(n, v);
      DyeLeft(h0, h, s.left, s.block, s.red, s.right, Across(path, t), v);
      SiblingBack(h, Node(s.left.Dyed(v), s.block, s.red, s.right), s.block, t, temp, path);
    }

    /** `rbt_black` on the right child of the sibling. */
    method PaintRightNephew(n: Block, v: bool, ghost t: Shape<Block>, ghost temp: Block, ghost path: Path<Block>)
      requires Mirror() && Low(t, temp, path) && path != Top && path.Sibling().Node? && path.Sibling().right.Node?
      requires n == path.Sibling().right.block && n in h.nodes
      modifies this`h, h.nodes`red
      ensures Mirror() && h == old(h).(red := h.red) && h.C(h.nil) == old(h).C(h.nil)
      ensures var s := path.Sibling(); Low(t, temp, WithSibling(path, Node(s.left, s.block, s.red, s.right.Dyed(v))))
    {
      ghost var h0, s := h, path.Sibling();
      Pointed(h, t, temp, path);
      Rises(h, t, temp, path);
      Pointed(h, s, if path.InLeft? then h.R(path.block) else h.L(path.block), Across(path, t));
      hide At;
      SetRed(n, v);
      DyeRight(h0, h, s.left, s.block, s.red, s.right, Across(path, t), v);
      SiblingBack(h, Node(s.left, s.block, s.red, s.right.Dyed(v)), s.block, t, temp, path);
    }

    /** The parent turns left: the sibling rises above it. */
    method HoistRight(temp: Block, ghost t: Shape<Block>, ghost path: Path<Block>)
      requires Mirror() && Low(t, temp, path) && path.InLeft? && path.right.Node?
      modifies this`root, this`h, h.nodes`left, h.nodes`right, h.nodes`parent, sentinel`parent
      ensures Mirror() && h.nodes == old(h.nodes) && SameOwner(old(h), h) && Low(t, temp, Hoisted(path))
    {
      LowReads(t, temp, path);
      Rises(h, t, temp, path);
      Pointed(h, t, temp, path);
      ghost var w := path.right;
      TurnLeft(temp.parent, t, path.red, w.left, w.block, w.red, w.right, path.up);
      HoistedAt(t, temp, path);
    }

    lemma HoistedAt(t: Shape<Block>, temp: Block, path: Path<Block>)
      requires path != Top && path.Sibling().Node? && temp == if t == Leaf then h.nil else t.block
      requires At(h, Hoisted(path).up.Rise(Hoisted(path).Rise(t)), path.Sibling().block, path.up)
      ensures At(h, t, temp, Hoisted(path))
    {
      var w, q := path.Sibling(), Hoisted(path);
      if path.InLeft? {
        DownLeft(h, q.Rise(t), w.block, w.red, w.right, path.up);
        Pointed(h, q.Rise(t), h.L(w.block), q.up);
        DownLeft(h, t, path.block, path.red, w.left, q.up);
        Pointed(h, t, h.L(path.block), q);
      } else {
        DownRight(h, w.left, w.block, w.red, q.Rise(t), path.up);
        Pointed(h, q.Rise(t), h.R(w.block), q.up);
        DownRight(h, w.right, path.block, path.red, t, q.up);
        Pointed(h, t, h.R(path.block), q);
      }
    }

    /** The parent turns right. */
    method HoistLeft(temp: Block, ghost t: Shape<Block>, ghost path: Path<Block>)
      requires Mirror() && Low(t, temp, path) && path.InRight? && path.left.Node?
      modifies this`root, this`h, h.nodes`left, h.nodes`right, h.nodes`parent, sentinel`parent
      ensures Mirror() && h.nodes == old(h.nodes) && SameOwner(old(h), h) && Low(t, temp, Hoisted(path))
    {
      LowReads(t, temp, path);
      Rises(h, t, temp, path);
      Pointed(h, t, temp, path);
      ghost var w := path.left;
      TurnRight(temp.parent, w.left, path.red, w.right, w.block, w.red, t, path.up);
      HoistedAt(t, temp, path);
    }

    /** The sibling turns right: its left child rises above it. */
    method SpinRight(w: Block, ghost t: Shape<Block>, ghost temp: Block, ghost path: Path<Block>)
      requires Mirror() && Low(t, temp, path) && path != Top && path.Sibling().Node? && path.Sibling().left.Node?
      requires w == path.Sibling().block
      modifies this`root, this`h, h.nodes`left, h.nodes`right, h.nodes`parent, sentinel`parent
      ensures Mirror() && h.nodes == old(h.nodes) && SameOwner(old(h), h)
      ensures var s := path.Sibling(); var n := s.left;
              Low(t, temp, WithSibling(path, Node(n.left, n.block, n.red, Node(n.right, w, s.red, s.right))))
    {
      ghost var s := path.Sibling();
      ghost var n := s.left;
      Pointed(h, t, temp, path);
      Rises(h, t, temp, path);
      Pointed(h, s, if path.InLeft? then h.R(path.block) else h.L(path.block), Across(path, t));
      TurnRight(w, n.left, s.red, n.right, n.block, n.red, s.right, Across(path, t));
      SiblingBack(h, Node(n.left, n.block, n.red, Node(n.right, w, s.red, s.right)), n.block, t, temp, path);
    }

    /** The sibling turns left. */
    method SpinLeft(w: Block, ghost t: Shape<Block>, ghost temp: Block, ghost path: Path<Block>)
      requires Mirror() && Low(t, temp, path) && path != Top && path.Sibling().Node? && path.Sibling().right.Node?
      requires w == path.Sibling().block
      modifies this`root, this`h, h.nodes`left, h.nodes`right, h.nodes`parent, sentinel`parent
      ensures Mirror() && h.nodes == old(h.nodes) && SameOwner(old(h), h)
      ensures var s := path.Sibling(); var n := s.right;
              Low(t, temp, WithSibling(path, Node(Node(s.left, w, s.red, n.left), n.block, n.red, n.right)))
    {
      ghost var s := path.Sibling();
      ghost var n := s.right;
      Pointed(h, t, temp, path);
      Rises(h, t, temp, path);
      Pointed(h, s, if path.InLeft? then h.R(path.block) else h.L(path.block), Across(path, t));
      TurnLeft(w, s.left, s.red, n.left, n.block, n.red, n.right, Across(path, t));
      SiblingBack(h, Node(Node(s.left, w, s.red, n.left), n.block, n.red, n.right), n.block, t, temp, path);
    }

    lemma SettledRises(t: Shape<Block>, path: Path<Block>)
      requires path != Top && path.Sibling().Node?
      ensures var q := Hoisted(Repainted(path)); 
              && q != Top && q.up != Top && q.block == path.block && q.up.block == path.Sibling().block
              && q.up.Rise(q.Rise(t)) == Settled(t, path) && q.up.up == path.up
    {
    }

    lemma RepaintSteps(path: Path<Block>, q: Path<Block>, q': Path<Block>)
      requires path != Top && path.Sibling().Node?
      requires q == WithSibling(path, path.Sibling().Dyed(path.red)) && q' == InColour(q, false)
      ensures q != Top && q.block == path.block && q' != Top && q'.Sibling().Node? && q'.Sibling().block == path.Sibling().block
      ensures q'.Sibling().left == path.Sibling().left && q'.Sibling().right == path.Sibling().right
      ensures var s := q'.Sibling();
              Repainted(path) == WithSibling(q', if path.InLeft? then Node(s.left, s.block, s.red, s.right.Dyed(false)) else Node(s.left.Dyed(false), s.block, s.red, s.right))
    {
    }

    method BlackNephews(w: Block, ghost t: Shape<Block>, ghost temp: Block, ghost path: Path<Block>) returns (calm: bool)
      requires Mirror() && Low(t, temp, path) && path != Top && path.Sibling().Node? && w == path.Sibling().block
      ensures calm <==> !path.Sibling().left.Red() && !path.Sibling().right.Red()
    {
      SiblingReads(t, temp, path);
      calm := !w.left.red && !w.right.red;
    }

    lemma ChildInNodes(t: Shape<Block>, temp: Block, path: Path<Block>)
      requires Low(t, temp, path) && path != Top && path.Sibling().Node?
      ensures var s := path.Sibling(); (s.left.Node? ==> s.left.block in h.nodes) && (s.right.Node? ==> s.right.block in h.nodes)
    {
      var s := path.Sibling();
      assert s.left.Node? ==> s.left.block in s.left.Blocks();
      assert s.right.Node? ==> s.right.block in s.right.Blocks();
      assert s.Blocks() <= path.Blocks();
    }

    /** A red sibling on the right: black now, it rises above the parent, now red. */
    method RedSiblingRight(temp: Block, w: Block, ghost t: Shape<Block>, ghost path: Path<Block>) returns (v: Block, ghost q: Path<Block>)
      requires Mirror() && Low(t, temp, path) && path.InLeft? && path.right.Node? && path.right.left.Node? && w == path.right.block
      modifies this`root, this`h, h.nodes`left, h.nodes`right, h.nodes`parent, h.nodes`red, sentinel`parent
      ensures Mirror() && h.nodes == old(h.nodes) && SameOwner(old(h), h) && q == Lowered(path) && Low(t, temp, q) && v == q.right.block
    {
      SiblingReads(t, temp, path);
      PaintSibling(w, false, t, temp, path);
      q := WithSibling(path, path.right.Dyed(false));
      LowReads(t, temp, q);
      PaintAbove(true, t, temp, q);
      q := InColour(q, true);
      HoistRight(temp, t, q);
      q := Hoisted(q);
      LowReads(t, temp, q);
      v := temp.parent.right;
    }

    /** A red near nephew and a black far one: the near one, black now, rises above the sibling, now red. */
    method NearNephewRight(temp: Block, w: Block, ghost t: Shape<Block>, ghost path: Path<Block>) returns (v: Block, ghost q: Path<Block>)
      requires Mirror() && Low(t, temp, path) && path.InLeft? && path.right.Node? && path.right.left.Node? && w == path.right.block
      modifies this`root, this`h, h.nodes`left, h.nodes`right, h.nodes`parent, h.nodes`red, sentinel`parent
      ensures Mirror() && h.nodes == old(h.nodes) && SameOwner(old(h), h) && q == Swapped(path) && Low(t, temp, q) && v == q.right.block
    {
      SiblingReads(t, temp, path);
      ChildInNodes(t, temp, path);
      PaintLeftNephew(w.left, false, t, temp, path);
      q := WithSibling(path, Node(path.right.left.Dyed(false), w, path.right.red, path.right.right));
      PaintSibling(w, true, t, temp, q);
      q := WithSibling(q, q.right.Dyed(true));
      SpinRight(w, t, temp, q);
      q := Swapped(path);
      LowReads(t, temp, q);
      v := temp.parent.right;
    }

    /** A red far nephew on the right: black now, with the sibling in the parent's colour and a black parent ... */
    method RepaintRight(temp: Block, w: Block, ghost t: Shape<Block>, ghost path: Path<Block>)
      requires Mirror() && Low(t, temp, path) && path.InLeft? && path.right.Node? && path.right.right.Node? && w == path.right.block
      modifies this`h, h.nodes`red
      ensures Mirror() && h == old(h).(red := h.red) && h.C(h.nil) == old(h).C(h.nil) && Low(t, temp, Repainted(path))
    {
      SiblingReads(t, temp, path);
      ChildInNodes(t, temp, path);
      LowReads(t, temp, path);
      ghost var q := WithSibling(path, path.right.Dyed(path.red));
      ghost var q' := InColour(q, false);
      RepaintSteps(path, q, q');
      assert path.Sibling() == path.right && w.right == path.right.right.block && w.right in h.nodes;
      hide *;
      PaintSibling(w, temp.parent.red, t, temp, path);
      PaintAbove(false, t, temp, q);
      PaintRightNephew(w.right, false, t, temp, q');
    }

    /** ... and then the sibling rises above the parent. */
    method FarNephewRight(temp: Block, w: Block, ghost t: Shape<Block>, ghost path: Path<Block>)
      requires Mirror() && Low(t, temp, path) && path.InLeft? && path.right.Node? && path.right.right.Node? && w == path.right.block
      modifies this`root, this`h, h.nodes`left, h.nodes`right, h.nodes`parent, h.nodes`red, sentinel`parent
      ensures Mirror() && h.nodes == old(h.nodes) && SameOwner(old(h), h) && At(h, Settled(t, path), w, path.up) && !h.C(h.nil)
    {
      SettledRises(t, path);
      RepaintRight(temp, w, t, path);
      ghost var q := Repainted(path);
      HoistRight(temp, t, q);
      q := Hoisted(q);
      Rises(h, t, temp, q);
      Rises(h, q.Rise(t), path.block, q.up);
    }

    /** A red sibling on the left: black now, it rises above the parent, now red. */
    method RedSiblingLeft(temp: Block, w: Block, ghost t: Shape<Block>, ghost path: Path<Block>) returns (v: Block, ghost q: Path<Block>)
      requires Mirror() && Low(t, temp, path) && path.InRight? && path.left.Node? && path.left.right.Node? && w == path.left.block
      modifies this`root, this`h, h.nodes`left, h.nodes`right, h.nodes`parent, h.nodes`red, sentinel`parent
      ensures Mirror() && h.nodes == old(h.nodes) && SameOwner(old(h), h) && q == Lowered(path) && Low(t, temp, q) && v == q.left.block
    {
      SiblingReads(t, temp, path);
      PaintSibling(w, false, t, temp, path);
      q := WithSibling(path, path.left.Dyed(false));
      LowReads(t, temp, q);
      PaintAbove(true, t, temp, q);
      q := InColour(q, true);
      HoistLeft(temp, t, q);
      q := Hoisted(q);
      LowReads(t, temp, q);
      v := temp.parent.left;
    }

    /** A red near nephew and a black far one: the near one, black now, rises above the sibling, now red. */
    method NearNephewLeft(temp: Block, w: Block, ghost t: Shape<Block>, ghost path: Path<Block>) returns (v: Block, ghost q: Path<Block>)
      requires Mirror() && Low(t, temp, path) && path.InRight? && path.left.Node? && path.left.right.Node? && w == path.left.block
      modifies this`root, this`h, h.nodes`left, h.nodes`right, h.nodes`parent, h.nodes`red, sentinel`parent
      ensures Mirror() && h.nodes == old(h.nodes) && SameOwner(old(h), h) && q == Swapped(path) && Low(t, temp, q) && v == q.left.block
    {
      SiblingReads(t, temp, path);
      ChildInNodes(t, temp, path);
      PaintRightNephew(w.right, false, t, temp, path);
      q := WithSibling(path, Node(path.left.left, w, path.left.red, path.left.right.Dyed(false)));
      PaintSibling(w, true, t, temp, q);
      q := WithSibling(q, q.left.Dyed(true));
      SpinLeft(w, t, temp, q);
      q := Swapped(path);
      LowReads(t, temp, q);
      v := temp.parent.left;
    }

    /** A red far nephew on the left: black now, with the sibling in the parent's colour and a black parent ... */
    method RepaintLeft(temp: Block, w: Block, ghost t: Shape<Block>, ghost path: Path<Block>)
      requires Mirror() && Low(t, temp, path) && path.InRight? && path.left.Node? && path.left.left.Node? && w == path.left.block
      modifies this`h, h.nodes`red
      ensures Mirror() && h == old(h).(red := h.red) && h.C(h.nil) == old(h).C(h.nil) && Low(t, temp, Repainted(path))
    {
      SiblingReads(t, temp, path);
      ChildInNodes(t, temp, path);
      LowReads(t, temp, path);
      ghost var q := WithSibling(path, path.left.Dyed(path.red));
      ghost var q' := InColour(q, false);
      RepaintSteps(path, q, q');
      assert path.Sibling() == path.left && w.left == path.left.left.block && w.left in h.nodes;
      hide *;
      PaintSibling(w, temp.parent.red, t, temp, path);
      PaintAbove(false, t, temp, q);
      PaintLeftNephew(w.left, false, t, temp, q');
    }

    /** ... and then the sibling rises above the parent. */
    method FarNephewLeft(temp: Block, w: Block, ghost t: Shape<Block>, ghost path: Path<Block>)
      requires Mirror() && Low(t, temp, path) && path.InRight? && path.left.Node? && path.left.left.Node? && w == path.left.block
      modifies this`root, this`h, h.nodes`left, h.nodes`right, h.nodes`parent, h.nodes`red, sentinel`parent
      ensures Mirror() && h.nodes == old(h.nodes) && SameOwner(old(h), h) && At(h, Settled(t, path), w, path.up) && !h.C(h.nil)
    {
      SettledRises(t, path);
      RepaintLeft(temp, w, t, path);
      ghost var q := Repainted(path);
      HoistLeft(temp, t, q);
      q := Hoisted(q);
      Rises(h, t, temp, q);
      Rises(h, q.Rise(t), path.block, q.up);
    }

    lemma AbsorbedAt(t: Shape<Block>, temp: Block, path: Path<Block>)
      requires path != Top && path.Sibling().Node? && Low(t, temp, WithSibling(path, path.Sibling().Dyed(true)))
      ensures Low(Absorbed(t, path), path.block, path.up)
    {
      var q := WithSibling(path, path.Sibling().Dyed(true));
      Rises(h, t, temp, q);
    }

    /** Both nephews black: the sibling turns red, and the deficit moves up. */
    method AbsorbRight(temp: Block, w: Block, ghost t: Shape<Block>, ghost path: Path<Block>) returns (next: Block, ghost u: Shape<Block>)
      requires Mirror() && Low(t, temp, path) && Deficit(t, path) && !t.Red() && path.InLeft? && path.right.Node? && !path.right.red
      requires w == path.right.block && !path.right.left.Red() && !path.right.right.Red()
      modifies this`h, h.nodes`red
      ensures Mirror() && h.nodes == old(h.nodes) && SameOwner(old(h), h) && Low(u, next, path.up) && Deficit(u, path.up)
      ensures u.Red() == path.red && u.Blocks() + path.up.Blocks() == t.Blocks() + path.Blocks()
    {
      LowReads(t, temp, path);
      SiblingReads(t, temp, path);
      AbsorbedDeficit(t, path);
      PaintSibling(w, true, t, temp, path);
      next, u := temp.parent, Absorbed(t, path);
      AbsorbedAt(t, temp, path);
    }

    /** The far nephew is red: the deficit ends here. */
    method FinishRight(temp: Block, w: Block, ghost t: Shape<Block>, ghost path: Path<Block>)
      returns (next: Block, ghost u: Shape<Block>, ghost q: Path<Block>)
      requires Mirror() && Low(t, temp, path) && Deficit(t, path) && !t.Red() && path.InLeft? && path.right.Node? && !path.right.red
      requires path.right.right.Red() && w == path.right.block
      modifies this`root, this`h, h.nodes`left, h.nodes`right, h.nodes`parent, h.nodes`red, sentinel`parent
      ensures Mirror() && h.nodes == old(h.nodes) && SameOwner(old(h), h) && Low(u, next, q) && Deficit(u, q)
      ensures q == Top && u.Blocks() + q.Blocks() == t.Blocks() + path.Blocks()
    {
      assert path.Sibling() == path.right && FarNephew(path) == path.right.right;
      FarNephewRight(temp, w, t, path);
      SettledWhole(h, t, w, path);
      next, u, q := root, path.up.Plug(Settled(t, path)), Top;
    }

    /** Makes sure that of two nephews, one of them red, the far one is. */
    method RedFarRight(temp: Block, w: Block, ghost t: Shape<Block>, ghost path: Path<Block>) returns (v: Block, ghost q: Path<Block>)
      requires Mirror() && Low(t, temp, path) && Deficit(t, path) && !t.Red() && path.InLeft? && path.right.Node? && !path.right.red
      requires w == path.right.block && (path.right.left.Red() || path.right.right.Red())
      modifies this`root, this`h, h.nodes`left, h.nodes`right, h.nodes`parent, h.nodes`red, sentinel`parent
      ensures Mirror() && h.nodes == old(h.nodes) && SameOwner(old(h), h) && Low(t, temp, q) && Deficit(t, q)
      ensures q.InLeft? && q.right.Node? && !q.right.red && q.right.right.Red() && v == q.right.block && q.Blocks() == path.Blocks()
    {
      v, q := w, path;
      SiblingReads(t, temp, path);
      if !w.right.red {
        SwappedDeficit(t, path);
        v, q := NearNephewRight(temp, w, t, path);
      }
    }

    method SettleFarRight(temp: Block, w: Block, ghost t: Shape<Block>, ghost path: Path<Block>)
      returns (next: Block, ghost u: Shape<Block>, ghost q: Path<Block>)
      requires Mirror() && Low(t, temp, path) && Deficit(t, path) && !t.Red() && path.InLeft? && path.right.Node? && !path.right.red
      requires w == path.right.block && (path.right.left.Red() || path.right.right.Red())
      modifies this`root, this`h, h.nodes`left, h.nodes`right, h.nodes`parent, h.nodes`red, sentinel`parent
      ensures Mirror() && h.nodes == old(h.nodes) && SameOwner(old(h), h) && Low(u, next, q) && Deficit(u, q)
      ensures u.Blocks() + q.Blocks() == t.Blocks() + path.Blocks()
      ensures q == Top && Depth(q) < Depth(path)
    {
      assert var top: Path<Block> := Top; Depth(top) < Depth(path);
      hide *;
      ghost var h0 := h;
      var v;
      ghost var p;
      v, p := RedFarRight(temp, w, t, path);
      ghost var h1 := h;
      next, u, q := FinishRight(temp, v, t, p);
      SameOwnerTwice(h0, h1, h);
    }

    /** One round of the removal loop from a left child, once its sibling `w` is black. */
    method SettleBesideRight(temp: Block, w: Block, ghost t: Shape<Block>, ghost path: Path<Block>)
      returns (next: Block, ghost u: Shape<Block>, ghost q: Path<Block>)
      requires Mirror() && Low(t, temp, path) && Deficit(t, path) && !t.Red() && path.InLeft? && path.right.Node? && !path.right.red
      requires w == path.right.block
      modifies this`root, this`h, h.nodes`left, h.nodes`right, h.nodes`parent, h.nodes`red, sentinel`parent
      ensures Mirror() && h.nodes == old(h.nodes) && SameOwner(old(h), h) && Low(u, next, q) && Deficit(u, q)
      ensures u.Blocks() + q.Blocks() == t.Blocks() + path.Blocks()
      ensures Depth(q) < Depth(path) && (path.red ==> u.Red() || q == Top)
    {
      assert Depth(path) == Depth(path.up) + 1 && path.Sibling() == path.right;
      hide *;
      var calm := BlackNephews(w, t, temp, path);
      if calm {
        next, u := AbsorbRight(temp, w, t, path);
        q := path.up;
      } else {
        next, u, q := SettleFarRight(temp, w, t, path);
      }
    }

    /** One round of the removal loop, from a left child. */
    method SettleLeft(temp: Block, ghost t: Shape<Block>, ghost path: Path<Block>)
      returns (next: Block, ghost u: Shape<Block>, ghost q: Path<Block>)
      requires Mirror() && Low(t, temp, path) && Deficit(t, path) && !t.Red() && path.InLeft?
      modifies this`root, this`h, h.nodes`left, h.nodes`right, h.nodes`parent, h.nodes`red, sentinel`parent
      ensures Mirror() && h.nodes == old(h.nodes) && SameOwner(old(h), h) && Low(u, next, q) && Deficit(u, q)
      ensures u.Blocks() + q.Blocks() == t.Blocks() + path.Blocks()
      ensures Depth(q) < Depth(path) || (Depth(q) == Depth(path) && u.Red())
    {
      DeficitSibling(t, path);
      LowReads(t, temp, path);
      SiblingReads(t, temp, path);
      ghost var p := path;
      var w := temp.parent.right;
      if w.red {
        LoweredDeficit(t, path);
        w, p := RedSiblingRight(temp, w, t, path);
        DeficitSibling(t, p);
      }
      next, u, q := SettleBesideRight(temp, w, t, p);
    }

    /** Both nephews black: the sibling turns red, and the deficit moves up. */
    method AbsorbLeft(temp: Block, w: Block, ghost t: Shape<Block>, ghost path: Path<Block>) returns (next: Block, ghost u: Shape<Block>)
      requires Mirror() && Low(t, temp, path) && Deficit(t, path) && !t.Red() && path.InRight? && path.left.Node? && !path.left.red
      requires w == path.left.block && !path.left.left.Red() && !path.left.right.Red()
      modifies this`h, h.nodes`red
      ensures Mirror() && h.nodes == old(h.nodes) && SameOwner(old(h), h) && Low(u, next, path.up) && Deficit(u, path.up)
      ensures u.Red() == path.red && u.Blocks() + path.up.Blocks() == t.Blocks() + path.Blocks()
    {
      LowReads(t, temp, path);
      SiblingReads(t, temp, path);
      AbsorbedDeficit(t, path);
      PaintSibling(w, true, t, temp, path);
      next, u := temp.parent, Absorbed(t, path);
      AbsorbedAt(t, temp, path);
    }

    /** The far nephew is red: the deficit ends here. */
    method FinishLeft(temp: Block, w: Block, ghost t: Shape<Block>, ghost path: Path<Block>)
      returns (next: Block, ghost u: Shape<Block>, ghost q: Path<Block>)
      requires Mirror() && Low(t, temp, path) && Deficit(t, path) && !t.Red() && path.InRight? && path.left.Node? && !path.left.red
      requires path.left.left.Red() && w == path.left.block
      modifies this`root, this`h, h.nodes`left, h.nodes`right, h.nodes`parent, h.nodes`red, sentinel`parent
      ensures Mirror() && h.nodes == old(h.nodes) && SameOwner(old(h), h) && Low(u, next, q) && Deficit(u, q)
      ensures q == Top && u.Blocks() + q.Blocks() == t.Blocks() + path.Blocks()
    {
      assert path.Sibling() == path.left && FarNephew(path) == path.left.left;
      FarNephewLeft(temp, w, t, path);
      SettledWhole(h, t, w, path);
      next, u, q := root, path.up.Plug(Settled(t, path)), Top;
    }

    /** Makes sure that of two nephews, one of them red, the far one is. */
    method RedFarLeft(temp: Block, w: Block, ghost t: Shape<Block>, ghost path: Path<Block>) returns (v: Block, ghost q: Path<Block>)
      requires Mirror() && Low(t, temp, path) && Deficit(t, path) && !t.Red() && path.InRight? && path.left.Node? && !path.left.red
      requires w == path.left.block && (path.left.left.Red() || path.left.right.Red())
      modifies this`root, this`h, h.nodes`left, h.nodes`right, h.nodes`parent, h.nodes`red, sentinel`parent
      ensures Mirror() && h.nodes == old(h.nodes) && SameOwner(old(h), h) && Low(t, temp, q) && Deficit(t, q)
      ensures q.InRight? && q.left.Node? && !q.left.red && q.left.left.Red() && v == q.left.block && q.Blocks() == path.Blocks()
    {
      v, q := w, path;
      SiblingReads(t, temp, path);
      if !w.left.red {
        SwappedDeficit(t, path);
        v, q := NearNephewLeft(temp, w, t, path);
      }
    }

    method SettleFarLeft(temp: Block, w: Block, ghost t: Shape<Block>, ghost path: Path<Block>)
      returns (next: Block, ghost u: Shape<Block>, ghost q: Path<Block>)
      requires Mirror() && Low(t, temp, path) && Deficit(t, path) && !t.Red() && path.InRight? && path.left.Node? && !path.left.red
      requires w == path.left.block && (path.left.left.Red() || path.left.right.Red())
      modifies this`root, this`h, h.nodes`left, h.nodes`right, h.nodes`parent, h.nodes`red, sentinel`parent
      ensures Mirror() && h.nodes == old(h.nodes) && SameOwner(old(h), h) && Low(u, next, q) && Deficit(u, q)
      ensures u.Blocks() + q.Blocks() == t.Blocks() + path.Blocks()
      ensures q == Top && Depth(q) < Depth(path)
    {
      assert var top: Path<Block> := Top; Depth(top) < Depth(path);
      hide *;
      ghost var h0 := h;
      var v;
      ghost var p;
      v, p := RedFarLeft(temp, w, t, path);
      ghost var h1 := h;
      next, u, q := FinishLeft(temp, v, t, p);
      SameOwnerTwice(h0, h1, h);
    }

    /** One round of the removal loop from a right child, once its sibling `w` is black. */
    method SettleBesideLeft(temp: Block, w: Block, ghost t: Shape<Block>, ghost path: Path<Block>)
      returns (next: Block, ghost u: Shape<Block>, ghost q: Path<Block>)
      requires Mirror() && Low(t, temp, path) && Deficit(t, path) && !t.Red() && path.InRight? && path.left.Node? && !path.left.red
      requires w == path.left.block
      modifies this`root, this`h, h.nodes`left, h.nodes`right, h.nodes`parent, h.nodes`red, sentinel`parent
      ensures Mirror() && h.nodes == old(h.nodes) && SameOwner(old(h), h) && Low(u, next, q) && Deficit(u, q)
      ensures u.Blocks() + q.Blocks() == t.Blocks() + path.Blocks()
      ensures Depth(q) < Depth(path) && (path.red ==> u.Red() || q == Top)
    {
      assert Depth(path) == Depth(path.up) + 1 && path.Sibling() == path.left;
      hide *;
      var calm := BlackNephews(w, t, temp, path);
      if calm {
        next, u := AbsorbLeft(temp, w, t, path);
        q := path.up;
      } else {
        next, u, q := SettleFarLeft(temp, w, t, path);
      }
    }

    /** One round of the removal loop, from a right child. */
    method SettleRight(temp: Block, ghost t: Shape<Block>, ghost path: Path<Block>)
      returns (next: Block, ghost u: Shape<Block>, ghost q: Path<Block>)
      requires Mirror() && Low(t, temp, path) && Deficit(t, path) && !t.Red() && path.InRight?
      modifies this`root, this`h, h.nodes`left, h.nodes`right, h.nodes`parent, h.nodes`red, sentinel`parent
      ensures Mirror() && h.nodes == old(h.nodes) && SameOwner(old(h), h) && Low(u, next, q) && Deficit(u, q)
      ensures u.Blocks() + q.Blocks() == t.Blocks() + path.Blocks()
      ensures Depth(q) < Depth(path) || (Depth(q) == Depth(path) && u.Red())
    {
      DeficitSibling(t, path);
      LowReads(t, temp, path);
      SiblingReads(t, temp, path);
      ghost var p := path;
      var w := temp.parent.left;
      if w.red {
        LoweredDeficit(t, path);
        w, p := RedSiblingLeft(temp, w, t, path);
        DeficitSibling(t, p);
      }
      next, u, q := SettleBesideLeft(temp, w, t, p);
    }

    /** The fix-up loop of `udx_sack_tree_remove`, and its last statement. */
    method Settle(block: Block, ghost t: Shape<Block>, ghost path: Path<Block>) returns (ghost w: Shape<Block>)
      requires Mirror() && Low(t, block, path) && Deficit(t, path) && t.Blocks() + path.Blocks() == h.nodes
      modifies this`root, this`h, h.nodes`left, h.nodes`right, h.nodes`parent, h.nodes`red, sentinel`parent, sentinel`red
      ensures Mirror() && IsRedBlack(h, w) && h.nodes == old(h.nodes) && h.key == old(h.key)
    {
      var temp := block;
      ghost var u, q := t, path;
      FocusColour(u, temp, q);
      while temp != root && !temp.red
        invariant Mirror() && h.nodes == old(h.nodes) && h.key == old(h.key) && Low(u, temp, q) && Deficit(u, q)
        invariant u.Blocks() + q.Blocks() == h.nodes
        invariant temp in h.nodes || temp == sentinel
        invariant temp.red == u.Red() && (temp == root <==> q == Top)
        decreases Depth(q), !u.Red()
      {
        DeficitSibling(u, q);
        LowReads(u, temp, q);
        if temp == temp.parent.left {
          temp, u, q := SettleLeft(temp, u, q);
        } else {
          temp, u, q := SettleRight(temp, u, q);
        }
        FocusColour(u, temp, q);
      }
      ghost var h0 := h;
      SetRed(temp, false);
      BlackFocus(h0, h, u, temp, q);
      w := q.Plug(u.Dyed(false));
    }

    // ---------- removal: unlinking ----------

    /** `rbtree_min`. */
    method LeastOf(block: Block, ghost t: Shape<Block>, ghost path: Path<Block>) returns (node: Block)
      requires Mirror() && At(h, t, block, path) && t.Node?
      ensures node == Least(t).block && node in h.nodes
    {
      node := block;
      ghost var u, q := t, path;
      Kids(node, u, q);
      PtrNil(u.left);
      while node.left != sentinel
        invariant At(h, u, node, q) && u.Node? && Least(u) == Least(t) && node == u.block && node in h.nodes
        invariant node.left == Ptr(u.left) && (node.left == sentinel <==> u.left == Leaf)
        decreases u
      {
        DownLeft(h, u.left, node, u.red, u.right, q);
        node, u, q := node.left, u.left, InLeft(q, node, u.red, u.right);
        Kids(node, u, q);
        PtrNil(u.left);
      }
    }

    /** `temp` takes the place of `subst`, a block with an empty side, below its parent. */
    method Unlink(subst: Block, temp: Block, par: Block, ghost m: Shape<Block>, ghost q: Path<Block>)
      requires Mirror() && At(h, m, subst, q) && m.Node? && q != Top && (par in h.nodes)
      requires temp in h.nodes || temp == sentinel
      modifies this`h, h.nodes`left, h.nodes`right, temp`parent
      ensures Mirror() && h == Unlinked(old(h), temp, par, q)
    {
      WhichChild(subst, q, m);
      hide *;
      UnlinkWrites(subst, temp, par, q);
    }

    method UnlinkWrites(subst: Block, temp: Block, par: Block, ghost q: Path<Block>)
      requires Mirror() && subst in h.nodes && par in h.nodes && q != Top
      requires subst.parent == q.block && q.block in h.nodes && (subst == q.block.left <==> q.InLeft?)
      requires temp in h.nodes || temp == sentinel
      modifies this`h, h.nodes`left, h.nodes`right, temp`parent
      ensures Mirror() && h == Unlinked(old(h), temp, par, q)
    {
      if subst == subst.parent.left {
        SetLeft(subst.parent, temp);
      } else {
        SetRight(subst.parent, temp);
      }
      SetParent(temp, par);
    }

    /** `subst` takes over the fields, the place and the children of `block`. */
    method TakeOver(block: Block, subst: Block, ghost l: Block, ghost r: Block, ghost p: Path<Block>)
      requires Mirror() && block in h.nodes && subst in h.nodes && block != subst
      requires block.left == l && block.right == r && (l in h.nodes || l == sentinel) && (r in h.nodes || r == sentinel)
      requires block == root <==> p == Top
      requires p != Top ==> block.parent == p.block && p.block in h.nodes && (block == p.block.left <==> p.InLeft?) && p.block != subst
      modifies this`root, this`h, h.nodes`left, h.nodes`right, h.nodes`parent, subst`red
      ensures Mirror() && h == TookChildren(TookPlace(TookFields(old(h), block, subst), subst, p), subst, l, r)
    {
      TakeFields(block, subst);
      TakePointer(block, subst, p);
      if subst.left != sentinel {
        SetParent(subst.left, subst);
      }
      if subst.right != sentinel {
        SetParent(subst.right, subst);
      }
    }

    method TakeFields(block: Block, subst: Block)
      requires Mirror() && block in h.nodes && subst in h.nodes
      modifies this`h, subst`left, subst`right, subst`parent, subst`red
      ensures Mirror() && h == TookFields(old(h), block, subst)
    {
      SetLeft(subst, block.left);
      SetRight(subst, block.right);
      SetParent(subst, block.parent);
      SetRed(subst, block.red);
    }

    method TakePointer(block: Block, subst: Block, ghost p: Path<Block>)
      requires Mirror() && block in h.nodes && subst in h.nodes
      requires block == root <==> p == Top
      requires p != Top ==> block.parent == p.block && p.block in h.nodes && (block == p.block.left <==> p.InLeft?)
      modifies this`root, this`h, h.nodes`left, h.nodes`right
      ensures Mirror() && h == TookPlace(old(h), subst, p)
    {
      if block == root {
        SetRoot(subst);
      } else if block == block.parent.left {
        SetLeft(block.parent, subst);
      } else {
        SetRight(block.parent, subst);
      }
    }

    /** The removed block forgets its neighbours. */
    method Forget(block: Block)
      requires Mirror() && block in h.nodes
      modifies this`h, block`left, block`right, block`parent
      ensures Mirror() && h == old(h).(nodes := old(h).nodes - {block})
    {
      h := h.(nodes := h.nodes - {block});
      block.left, block.right, block.parent := null, null, null;
    }

    /** The tree without the block that was unlinked: what took its place is in focus. */
    ghost predicate Cut(red: bool, t: Shape<Block>, temp: Block, path: Path<Block>)
      reads this`h
    {
      && Low(t, temp, path) && path != Top && t.Blocks() + path.Blocks() == h.nodes
      && if red then Fits(t, path) else Deficit(t, path)
    }

    lemma ThinCut(h0: Links, h1: Links, block: Block, temp: Block, t: Shape<Block>, path: Path<Block>)
      requires At(h0, t, block, path) && Fits(t, path) && t.Node? && (t.left == Leaf || t.right == Leaf) && path != Top
      requires t.Blocks() + path.Blocks() == h0.nodes && !h0.C(h0.nil) && temp == if Heir(t) == Leaf then h0.nil else Heir(t).block
      requires h1 == Unlinked(h0, temp, path.block, path) && h == h1.(nodes := h1.nodes - {block})
      ensures Cut(t.red, Heir(t), temp, path)
    {
      UnlinkedAt(h0, t, block, temp, path.block, path);
      HeirInOrder(h0, t, path);
      TakenOut(t.left, t.block, t.red, t.right, path);
      assert At(h1, Heir(t), temp, path);
      LeavesAt(h1, Heir(t), temp, path, block);
    }

    /** A block with an empty side is unlinked. */
    method RemoveThin(block: Block, temp: Block, ghost t: Shape<Block>, ghost path: Path<Block>)
      requires Mirror() && At(h, t, block, path) && Fits(t, path) && t.Node? && (t.left == Leaf || t.right == Leaf) && path != Top
      requires t.Blocks() + path.Blocks() == h.nodes && !h.C(h.nil) && temp == Ptr(Heir(t))
      modifies this`h, h.nodes`left, h.nodes`right, temp`parent, block`left, block`right, block`parent
      ensures Mirror() && h.nodes == old(h.nodes) - {block} && h.key == old(h.key) && Cut(t.red, Heir(t), temp, path)
    {
      WhichChild(block, path, t);
      PtrInNodes(t, path);
      ghost var h0 := h;
      hide Mirror, At, Fits;
      Unlink(block, temp, block.parent, t, path);
      ghost var h1 := h;
      Forget(block);
      ThinCut(h0, h1, block, temp, t, path);
    }

    lemma PtrInNodes(t: Shape<Block>, path: Path<Block>)
      requires h.InOrder(t, path) && t.Node? && (t.left == Leaf || t.right == Leaf)
      ensures Ptr(Heir(t)) in h.nodes || Ptr(Heir(t)) == sentinel
    {
      HeirInOrder(h, t, path);
      assert Heir(t).Node? ==> Heir(t).block in Heir(t).Blocks();
    }

    /** What the code reads of `x` once its successor `y` is unlinked. */
    lemma StandInReads(l: Shape<Block>, x: Block, c: bool, r: Shape<Block>, y: Block, p: Path<Block>, parR: Block?)
      requires Mirror() && Fitting(h, l, x, c, r, y, p) && y in h.nodes
      requires h.Rep(l, h.L(x), x) && h.Rep(r, h.R(x), parR) && h.RepPath(p, x, h.P(x))
      ensures x in h.nodes && x.left == Ptr(l) && x.right == Ptr(r) && x.red == h.C(x)
      ensures (Ptr(l) in h.nodes || Ptr(l) == sentinel) && (Ptr(r) in h.nodes || Ptr(r) == sentinel)
      ensures y != Ptr(l) && y != Ptr(r) && y != sentinel
      ensures x == root <==> p == Top
      ensures p != Top ==> x.parent == p.block && p.block in h.nodes && (x == p.block.left <==> p.InLeft?) && p.block != y
    {
      assert x in Node(l, x, c, r).Blocks();
      assert l.Node? ==> l.block in l.Blocks();
      assert r.Node? ==> r.block in r.Blocks();
      FocusApart(h, Node(l, x, c, r), x, p);
      if p != Top {
        RootOnPath(h, p, x, p.block);
        assert p.block in p.Blocks();
        if p.InRight? && p.left.Node? {
          assert p.left.block in p.left.Blocks();
          assert p.left.block in p.Blocks();
        }
      }
    }

    /** The parent of the successor, as the code finds it. */
    lemma SuccessorReads(block: Block, subst: Block, t: Shape<Block>, path: Path<Block>)
      requires Mirror() && At(h, t, block, path) && t.Node? && t.right.Node? && subst == Least(t.right).block
      ensures At(h, Least(t.right), subst, Below(t.left, block, t.red, t.right, path))
      ensures subst in h.nodes && block in h.nodes && subst != block
      ensures subst.parent == Below(t.left, block, t.red, t.right, path).block && subst.parent in h.nodes
      ensures subst.parent == block <==> t.right.left == Leaf
      ensures Ptr(Least(t.right).right) in h.nodes || Ptr(Least(t.right).right) == sentinel
      ensures subst.red == Least(t.right).red && subst.right == Ptr(Least(t.right).right) && subst != root
    {
      var base, q := InRight(path, t.left, block, t.red), Below(t.left, block, t.red, t.right, path);
      assert block in t.Blocks();
      FocusApart(h, t, block, path);
      DownRight(h, t.left, block, t.red, t.right, path);
      SpineDown(h, t.right, h.R(block), base);
      LeastFitting(h, t.left, block, t.red, t.right, path);
      WhichChild(subst, q, Least(t.right));
      Kids(subst, Least(t.right), q);
      PtrInNodes(Least(t.right), q);
      if t.right.left != Leaf {
        HeadOfSpine(t.right, base);
      }
    }

    /** The least block on the right, `subst`, is unlinked; how `block` then stands. */
    method UnlinkSuccessor(block: Block, subst: Block, temp: Block, ghost t: Shape<Block>, ghost path: Path<Block>) returns (ghost par: Block)
      requires Mirror() && At(h, t, block, path) && t.Node? && t.right.Node?
      requires subst == Least(t.right).block && temp == Ptr(Least(t.right).right)
      modifies this`h, h.nodes`left, h.nodes`right, temp`parent
      ensures par == if t.right.left == Leaf then subst else Below(t.left, block, t.red, t.right, path).block
      ensures Mirror() && h == Unlinked(old(h), temp, par, Below(t.left, block, t.red, t.right, path))
      ensures block in h.nodes && subst in h.nodes && block != subst
      ensures block.left == h.L(block) && block.left != null && (block.left in h.nodes || block.left == sentinel) && block.left != subst
      ensures block.right == h.R(block) && block.right != null && (block.right in h.nodes || block.right == sentinel) && block.right != subst
      ensures block == root <==> path == Top
      ensures path != Top ==> block.parent == path.block && path.block in h.nodes && (block == path.block.left <==> path.InLeft?) && path.block != subst
      ensures subst != sentinel
    {
      ghost var h0, l, c, r := h, t.left, t.red, t.right;
      SuccessorReads(block, subst, t, path);
      LeastFitting(h0, l, block, c, r, path);
      par := if subst.parent == block then subst else subst.parent;
      Unlink(subst, temp, if subst.parent == block then subst else subst.parent, Least(r), Below(l, block, c, r, path));
      Orphaned(h0, h, l, block, c, r, path, temp, par);
      FittingMoves(h0, h, l, block, c, Beheaded(r), subst, path);
      StandInReads(l, block, c, Beheaded(r), subst, path, if r.left == Leaf then par else block);
    }

    /** The least block on the right, `subst`, is unlinked and takes over from `block`. */
    method RemoveThick(block: Block, subst: Block, temp: Block, ghost t: Shape<Block>, ghost path: Path<Block>)
      requires Mirror() && At(h, t, block, path) && Fits(t, path) && t.Node? && t.right.Node?
      requires t.Blocks() + path.Blocks() == h.nodes && !h.C(h.nil)
      requires subst == Least(t.right).block && temp == Ptr(Least(t.right).right)
      modifies this`root, this`h, h.nodes`left, h.nodes`right, h.nodes`parent, h.nodes`red, sentinel`parent
      ensures Mirror() && h.nodes == old(h.nodes) - {block} && h.key == old(h.key)
      ensures Cut(Least(t.right).red, Least(t.right).right, temp, Below(t.left, subst, t.red, t.right, path))
    {
      ghost var h0 := h;
      SuccessorReads(block, subst, t, path);
      hide Mirror, At, Fits;
      ghost var par := UnlinkSuccessor(block, subst, temp, t, path);
      ghost var h1 := h;
      TookOver(h1, block, subst, path, block.left, block.right);
      TakeOver(block, subst, block.left, block.right, path);
      ghost var g := h;
      Forget(block);
      ThickCut(h0, h1, g, t.left, block, t.red, t.right, path, temp, par);
    }

    lemma RootCut(h0: Links, block: Block, temp: Block, t: Shape<Block>)
      requires At(h0, t, block, Top) && Fits(t, Top) && t.Node? && (t.left == Leaf || t.right == Leaf)
      requires t.Blocks() == h0.nodes && !h0.C(h0.nil) && temp == if Heir(t) == Leaf then h0.nil else Heir(t).block
      requires h == h0.(root := temp, red := h0.red[temp := false], parent := h0.parent[temp := null], nodes := h0.nodes - {block})
      ensures IsRedBlack(h, Heir(t).Dyed(false))
    {
      var top: Path<Block> := Top;
      var h1 := Unlinked(h0, temp, null, top);
      var h2 := h1.(nodes := h1.nodes - {block});
      UnlinkedAt(h0, t, block, temp, null, top);
      HeirInOrder(h0, t, top);
      TakenOut(t.left, t.block, t.red, t.right, top);
      LeavesAt(h1, Heir(t), temp, top, block);
      BlackFocus(h2, h, Heir(t), temp, top);
    }

    /** The root, with an empty side, is removed. */
    method RemoveRoot(block: Block, temp: Block, ghost t: Shape<Block>) returns (ghost w: Shape<Block>)
      requires Mirror() && At(h, t, block, Top) && Fits(t, Top) && t.Node? && (t.left == Leaf || t.right == Leaf)
      requires t.Blocks() == h.nodes && !h.C(h.nil) && temp == Ptr(Heir(t))
      modifies this`root, this`h, temp`red, temp`parent, block`left, block`right, block`parent
      ensures Mirror() && IsRedBlack(h, w) && h.nodes == old(h.nodes) - {block} && h.key == old(h.key)
    {
      WhichChild(block, Top, t);
      PtrInNodes(t, Top);
      ghost var h0 := h;
      hide Mirror, At, Fits;
      SetRoot(temp);
      SetRed(temp, false);
      SetParent(temp, null);
      Forget(block);
      RootCut(h0, block, temp, t);
      w := Heir(t).Dyed(false);
    }

    /** Which block is taken out of the pointers, and what hangs below it. */
    method Choose(block: Block, ghost t: Shape<Block>, ghost path: Path<Block>) returns (temp: Block, subst: Block)
      requires Mirror() && At(h, t, block, path) && t.Node?
      ensures temp in h.nodes || temp == sentinel
      ensures subst == block <==> t.left == Leaf || t.right == Leaf
      ensures subst == block ==> temp == Ptr(Heir(t))
      ensures subst != block ==> subst == Least(t.right).block && temp == Ptr(Least(t.right).right)
    {
      Kids(block, t, path);
      PtrNil(t.left);
      PtrNil(t.right);
      if t.left == Leaf || t.right == Leaf {
        PtrInNodes(t, path);
      }
      if block.left == sentinel {
        temp, subst := block.right, block;
      } else if block.right == sentinel {
        temp, subst := block.left, block;
      } else {
        DownRight(h, t.left, block, t.red, t.right, path);
        subst := LeastOf(block.right, t.right, InRight(path, t.left, block, t.red));
        SuccessorReads(block, subst, t, path);
        temp := subst.right;
      }
    }

    /** `block` leaves the pointers, by way of `subst`; what hung below `subst` is in focus. */
    method CutOut(block: Block, subst: Block, temp: Block, ghost t: Shape<Block>, ghost path: Path<Block>)
      returns (red: bool, ghost u: Shape<Block>, ghost q: Path<Block>)
      requires Mirror() && At(h, t, block, path) && Fits(t, path) && t.Node? && t.Blocks() + path.Blocks() == h.nodes && !h.C(h.nil)
      requires subst == block <==> t.left == Leaf || t.right == Leaf
      requires subst == block ==> temp == Ptr(Heir(t)) && path != Top
      requires subst != block ==> subst == Least(t.right).block && temp == Ptr(Least(t.right).right)
      modifies this`root, this`h, h.nodes`left, h.nodes`right, h.nodes`parent, h.nodes`red, sentinel`parent
      ensures Mirror() && h.nodes == old(h.nodes) - {block} && h.key == old(h.key) && Cut(red, u, temp, q)
    {
      if subst == block {
        Kids(block, t, path);
        PtrInNodes(t, path);
        red := subst.red;
        u, q := Heir(t), path;
        RemoveThin(block, temp, t, path);
      } else {
        SuccessorReads(block, subst, t, path);
        red := subst.red;
        u, q := Least(t.right).right, Below(t.left, subst, t.red, t.right, path);
        RemoveThick(block, subst, temp, t, path);
      }
    }

    /** The removal of a block other than the root, or of a root with two children. */
    method RemoveBelow(block: Block, subst: Block, temp: Block, ghost t: Shape<Block>, ghost path: Path<Block>) returns (ghost w: Shape<Block>)
      requires Mirror() && At(h, t, block, path) && Fits(t, path) && t.Node? && t.Blocks() + path.Blocks() == h.nodes && !h.C(h.nil)
      requires subst == block <==> t.left == Leaf || t.right == Leaf
      requires subst == block ==> temp == Ptr(Heir(t)) && path != Top
      requires subst != block ==> subst == Least(t.right).block && temp == Ptr(Least(t.right).right)
      modifies this`root, this`h, h.nodes`left, h.nodes`right, h.nodes`parent, h.nodes`red, sentinel`parent, sentinel`red
      ensures Mirror() && IsRedBlack(h, w) && h.nodes == old(h.nodes) - {block} && h.key == old(h.key)
    {
      ghost var u, q;
      var red;
      red, u, q := CutOut(block, subst, temp, t, path);
      if red {
        FitsIsRedBlack(h, u, temp, q);
        w := q.Plug(u);
      } else {
        w := Settle(temp, u, q);
      }
    }

    /** `udx_sack_tree_remove`: the tree loses exactly `block`. */
    method Remove(block: Block)
      requires Valid() && block in Blocks()
      modifies this`root, this`h, this`tree, sentinel`parent, sentinel`red
      modifies h.nodes`left, h.nodes`right, h.nodes`parent, h.nodes`red
      ensures Valid() && Blocks() == old(Blocks()) - {block} && h.key == old(h.key)
    {
      assert h.root == root;
      hide Mirror, At, Fits, IsRedBlack;
      ghost var t, path := LocateInTree(block);
      RemoveAt(block, t, path);
    }

    lemma LocateInTree(block: Block) returns (t: Shape<Block>, path: Path<Block>)
      requires IsRedBlack(h, tree) && block in h.nodes && h.root == root
      ensures At(h, t, block, path) && Fits(t, path) && t.Node? && t.Blocks() + path.Blocks() == h.nodes && !h.C(h.nil)
    {
      RootFits(tree, h.key, h.min, h.max);
      EmptyRoot(h, tree);
      t, path := Locate(h, tree, root, Top, block);
    }

    method RemoveAt(block: Block, ghost t: Shape<Block>, ghost path: Path<Block>)
      requires Mirror() && At(h, t, block, path) && Fits(t, path) && t.Node? && t.Blocks() + path.Blocks() == h.nodes && !h.C(h.nil)
      modifies this`root, this`h, this`tree, sentinel`parent, sentinel`red
      modifies h.nodes`left, h.nodes`right, h.nodes`parent, h.nodes`red
      ensures Mirror() && IsRedBlack(h, tree) && h.nodes == old(h.nodes) - {block} && h.key == old(h.key)
    {
      hide *;
      WhichChild(block, path, t);
      var temp, subst := Choose(block, t, path);
      if subst == root {
        RootChosen(block, subst, t, path);
        tree := RemoveRoot(block, temp, t);
      } else {
        tree := RemoveBelow(block, subst, temp, t, path);
      }
    }

    lemma RootChosen(block: Block, subst: Block, t: Shape<Block>, path: Path<Block>)
      requires Mirror() && At(h, t, block, path) && t.Node? && t.Blocks() + path.Blocks() == h.nodes
      requires subst == root && (subst == block <==> t.left == Leaf || t.right == Leaf)
      requires subst != block ==> subst == Least(t.right).block
      ensures subst == block && path == Top && t.Blocks() == h.nodes
    {
      WhichChild(block, path, t);
      if subst != block {
        SuccessorReads(block, subst, t, path);
      }
    }

    // ---------- searching and walking ----------

    /** The blocks end at their `stop`, and one ends before or where the next begins. */
    ghost predicate Spans(stop: map<Block, int>)
      reads this`h, h.nodes`end
    {
      && (forall n :: n in h.nodes ==> n in stop && n in h.key && h.key[n] <= stop[n] && n.end == U32(stop[n]))
      && (forall n, m :: n in h.nodes && m in h.nodes && h.key[n] < h.key[m] ==> stop[n] <= h.key[m])
    }

    /** `udx_sack_tree_find`: a block that contains the number `k` or ends on it, if there is one. */
    method Find(seqno: uint32, ghost k: int, ghost stop: map<Block, int>) returns (r: Block?)
      requires Valid() && Spans(stop) && seqno == U32(k)
      requires forall n :: n in Blocks() ==> Near(k, Start(n)) && Near(k, stop[n])
      ensures r == Found(tree, k, h.key, stop)
    {
      var block := root;
      ghost var t, path: Path<Block> := tree, Top;
      Pointed(h, t, block, path);
      while block != sentinel
        invariant At(h, t, block, path) && Found(t, k, h.key, stop) == Found(tree, k, h.key, stop)
        invariant block == sentinel <==> t == Leaf
        decreases t
      {
        FindReads(block, k, stop, t, path);
        hide Mirror, Spans, Placed, At, IsRedBlack, SeqDiff, Near;
        if SeqDiff(seqno, block.start) < 0 {
          block, t, path := block.left, t.left, InLeft(path, t.block, t.red, t.right);
        } else if SeqDiff(seqno, block.end) > 0 {
          block, t, path := block.right, t.right, InRight(path, t.left, t.block, t.red);
        } else {
          return block;
        }
      }
      return null;
    }

    /** What `Find` answers. */
    lemma FindsExactly(k: int, stop: map<Block, int>)
      requires Valid() && Spans(stop)
      ensures var r := Found(tree, k, h.key, stop);
              && (r != null ==> r in Blocks() && Start(r) <= k <= stop[r])
              && (r == null ==> forall n :: n in Blocks() ==> k < Start(n) || stop[n] < k)
    {
      FoundExact(tree, k, h.key, stop, h.min, h.max);
    }

    lemma FindReads(block: Block, k: int, stop: map<Block, int>, t: Shape<Block>, path: Path<Block>)
      requires Mirror() && Placed(h.nodes, h.key) && Spans(stop) && At(h, t, block, path) && t.Node?
      requires forall n :: n in h.nodes ==> Near(k, h.key[n]) && Near(k, stop[n])
      ensures block in h.nodes && block == t.block
      ensures SeqDiff(U32(k), block.start) < 0 <==> k < h.key[block]
      ensures SeqDiff(U32(k), block.end) > 0 <==> k > stop[block]
      ensures block.left == Ptr(t.left) && At(h, t.left, block.left, InLeft(path, block, t.red, t.right))
      ensures block.right == Ptr(t.right) && At(h, t.right, block.right, InRight(path, t.left, block, t.red))
      ensures (block.left == sentinel <==> t.left == Leaf) && (block.right == sentinel <==> t.right == Leaf)
    {
      Kids(block, t, path);
      PtrNil(t.left);
      PtrNil(t.right);
      SeqCompareTrue(k, h.key[block]);
      SeqCompareTrue(k, stop[block]);
      DownLeft(h, t.left, block, t.red, t.right, path);
      DownRight(h, t.left, block, t.red, t.right, path);
    }

    /** `udx_sack_tree_min`. */
    method Min() returns (r: Block?)
      requires Valid()
      ensures r == null <==> Blocks() == {}
      ensures r != null ==> r in Blocks() && forall n :: n in Blocks() ==> Start(r) <= Start(n)
    {
      EmptyRoot(h, tree);
      if root == sentinel {
        return null;
      }
      r := LeastOf(root, tree, Top);
      LeastIsFirst(tree, h.key, h.min, h.max);
    }

    /** `udx_sack_tree_next`: the block that begins next after `block`. */
    method Next(block: Block) returns (r: Block?)
      requires Valid() && block in Blocks()
      ensures r == null ==> forall n :: n in Blocks() ==> Start(n) <= Start(block)
      ensures r != null ==> r in Blocks() && Start(block) < Start(r)
      ensures r != null ==> forall n :: n in Blocks() ==> Start(n) <= Start(block) || Start(r) <= Start(n)
    {
      ghost var t, path := LocateInTree(block);
      Kids(block, t, path);
      PtrNil(t.right);
      LastBelow(block, t, path);
      if block.right != sentinel {
        DownRight(h, t.left, block, t.red, t.right, path);
        r := LeastOf(block.right, t.right, InRight(path, t.left, block, t.red));
        LeastAfter(block, t, path);
      } else {
        r := Climb(block, block, t, path);
      }
    }

    /** The way up in `udx_sack_tree_next`: nothing in the subtree `t` begins after `first`. */
    method Climb(first: Block, block: Block, ghost t: Shape<Block>, ghost path: Path<Block>) returns (r: Block?)
      requires Mirror() && At(h, t, block, path) && t.Node? && first in t.Blocks() && t.Blocks() + path.Blocks() == h.nodes
      requires first in h.key && forall n :: n in t.Blocks() ==> n in h.key && h.key[n] <= h.key[first]
      ensures forall n :: n in h.nodes ==> n in h.key
      ensures r == null ==> forall n :: n in h.nodes ==> h.key[n] <= h.key[first]
      ensures r != null ==> r in h.nodes && h.key[first] < h.key[r]
      ensures r != null ==> forall n :: n in h.nodes ==> h.key[n] <= h.key[first] || h.key[r] <= h.key[n]
    {
      var focus := block;
      ghost var u, q := t, path;
      while true
        invariant At(h, u, focus, q) && u.Node? && first in u.Blocks() && u.Blocks() + q.Blocks() == h.nodes
        invariant forall n :: n in u.Blocks() ==> n in h.key && h.key[n] <= h.key[first]
        decreases Depth(q)
      {
        var parent := focus.parent;
        ClimbReads(first, focus, u, q);
        hide *;
        if focus == root {
          return null;
        }
        if focus == parent.left {
          return parent;
        }
        focus, u, q := parent, q.Rise(u), q.up;
      }
    }

    lemma ClimbReads(first: Block, focus: Block, u: Shape<Block>, q: Path<Block>)
      requires Mirror() && At(h, u, focus, q) && u.Node? && first in u.Blocks() && u.Blocks() + q.Blocks() == h.nodes
      requires first in h.key && forall n :: n in u.Blocks() ==> n in h.key && h.key[n] <= h.key[first]
      ensures forall n :: n in h.nodes ==> n in h.key
      ensures focus == root ==> forall n :: n in h.nodes ==> h.key[n] <= h.key[first]
      ensures focus != root ==> focus.parent != null && focus.parent in h.nodes && q != Top && Depth(q.up) < Depth(q)
      ensures focus != root && focus == focus.parent.left ==>
                && h.key[first] < h.key[focus.parent]
                && forall n :: n in h.nodes ==> h.key[n] <= h.key[first] || h.key[focus.parent] <= h.key[n]
      ensures focus != root && focus != focus.parent.left ==>
                && At(h, q.Rise(u), focus.parent, q.up) && q.Rise(u).Node? && first in q.Rise(u).Blocks()
                && q.Rise(u).Blocks() + q.up.Blocks() == h.nodes
                && forall n :: n in q.Rise(u).Blocks() ==> n in h.key && h.key[n] <= h.key[first]
    {
      WhichChild(focus, q, u);
      KeysOutside(q, h.key, h.min, h.max);
      KeysBetween(u, h.key, q.Lo(h.key, h.min), q.Hi(h.key, h.max));
      if q != Top {
        Rises(h, u, focus, q);
        assert q.Rise(u).Blocks() == u.Blocks() + {q.block} + q.Sibling().Blocks();
        if q.InRight? {
          KeysBetween(q.left, h.key, q.up.Lo(h.key, h.min), h.key[q.block]);
        }
      }
    }

    lemma LastBelow(block: Block, t: Shape<Block>, path: Path<Block>)
      requires At(h, t, block, path) && t.Node? && t.block == block
      ensures t.right == Leaf ==> forall n :: n in t.Blocks() ==> n in h.key && h.key[n] <= h.key[block]
    {
      KeysBetween(t.left, h.key, path.Lo(h.key, h.min), h.key[block]);
    }

    lemma LeastAfter(block: Block, t: Shape<Block>, path: Path<Block>)
      requires At(h, t, block, path) && t.Node? && t.block == block && t.right.Node? && t.Blocks() + path.Blocks() == h.nodes
      ensures var r := Least(t.right).block;
              && r in h.nodes && (forall n :: n in h.nodes ==> n in h.key) && h.key[block] < h.key[r]
              && forall n :: n in h.nodes ==> h.key[n] <= h.key[block] || h.key[r] <= h.key[n]
    {
      var hi := path.Hi(h.key, h.max);
      LeastIsFirst(t.right, h.key, h.key[block], hi);
      KeysBetween(t.left, h.key, path.Lo(h.key, h.min), h.key[block]);
      KeysBetween(t.right, h.key, h.key[block], hi);
      KeysOutside(path, h.key, h.min, h.max);
    }
  }

  /** The path to a child of the subtree in focus. */
  ghost function DownPath(t: Shape<Block>, path: Path<Block>, left: bool): Path<Block>
    requires t.Node?
  {
    if left then InLeft(path, t.block, t.red, t.right) else InRight(path, t.left, t.block, t.red)
  }

  /** Each block's `start` is the projection of its number. */
  ghost predicate Placed(nodes: set<Block>, key: map<Block, int>)
    reads nodes`start
  {
    forall n :: n in nodes ==> n in key && n.start == U32(key[n])
  }

  /** The links of the same blocks under the same numbers. */
  ghost predicate SameOwner(h: Links, g: Links) {
    && g.nil == h.nil && g.nodes == h.nodes && g.key == h.key && g.min == h.min && g.max == h.max
    && g.C(g.nil) == h.C(h.nil)
  }

  lemma SameOwnerTwice(h0: Links, h1: Links, h2: Links)
    requires SameOwner(h0, h1) && SameOwner(h1, h2)
    ensures SameOwner(h0, h2)
  {
  }

  /** The block a search for `k` ends at. */
  ghost function Found(t: Shape<Block>, k: int, key: map<Block, int>, stop: map<Block, int>): Block? {
    if t == Leaf || t.block !in key || t.block !in stop then null
    else if k < key[t.block] then Found(t.left, k, key, stop)
    else if k > stop[t.block] then Found(t.right, k, key, stop)
    else t.block
  }

  /** A search ends at a block that contains `k` or ends on it exactly if there is one. */
  lemma {:induction false} FoundExact(t: Shape<Block>, k: int, key: map<Block, int>, stop: map<Block, int>, lo: int, hi: int)
    requires t.Ordered(key, lo, hi)
    requires forall n :: n in t.Blocks() ==> n in key && n in stop && key[n] <= stop[n]
    requires forall n, m :: n in t.Blocks() && m in t.Blocks() && key[n] < key[m] ==> stop[n] <= key[m]
    ensures var r := Found(t, k, key, stop);
            && (r != null ==> r in t.Blocks() && key[r] <= k <= stop[r])
            && (r == null ==> forall n :: n in t.Blocks() ==> k < key[n] || stop[n] < k)
  {
    if t.Node? {
      KeysBetween(t.left, key, lo, key[t.block]);
      KeysBetween(t.right, key, key[t.block], hi);
      FoundExact(t.left, k, key, stop, lo, key[t.block]);
      FoundExact(t.right, k, key, stop, key[t.block], hi);
    }
  }

  /** The subtree below a block, with it. */
  ghost function Under(t: Shape<Block>, b: Block): Shape<Block> {
    if t == Leaf || t.block == b then t else if b in t.left.Blocks() then Under(t.left, b) else Under(t.right, b)
  }

  lemma {:induction false} UnderWithin(t: Shape<Block>, b: Block)
    ensures Under(t, b).Blocks() <= t.Blocks()
  {
    if t.Node? {
      UnderWithin(t.left, b);
      UnderWithin(t.right, b);
    }
  }

  /** Of two blocks that touch at `k` the search ends at the upper one exactly if the lower one is below it in the tree,
      and else at the lower one: whichever it meets first, not, as the source's comment has it, always the upper one. */
  lemma {:induction false} AdjacentFound(t: Shape<Block>, k: int, key: map<Block, int>, stop: map<Block, int>, a: Block, b: Block,
                                         lo: int, hi: int)
    requires t.Ordered(key, lo, hi) && a in t.Blocks() && b in t.Blocks()
    requires forall n :: n in t.Blocks() ==> n in key && n in stop && key[n] < stop[n]
    requires forall n, m :: n in t.Blocks() && m in t.Blocks() && key[n] < key[m] ==> stop[n] <= key[m]
    requires stop[a] == k == key[b]
    ensures Found(t, k, key, stop) == if a in Under(t, b).Blocks() then b else a
  {
    KeysBetween(t.left, key, lo, key[t.block]);
    KeysBetween(t.right, key, key[t.block], hi);
    UnderWithin(t.left, b);
    UnderWithin(t.right, b);
    if b in t.left.Blocks() {
      AdjacentFound(t.left, k, key, stop, a, b, lo, key[t.block]);
    } else if a in t.right.Blocks() {
      AdjacentFound(t.right, k, key, stop, a, b, key[t.block], hi);
    }
  }

  /** Both happen. */
  lemma AdjacentFindsFirstMet(a: Block, b: Block, k: int)
    requires a != b
    ensures var key, stop := map[a := k - 1, b := k], map[a := k, b := k + 1];
            && Found(Node(Leaf, a, false, Node(Leaf, b, true, Leaf)), k, key, stop) == a
            && Found(Node(Node(Leaf, a, true, Leaf), b, false, Leaf), k, key, stop) == b
  {
  }

  lemma {:induction false} LeastIsFirst(t: Shape<Block>, key: map<Block, int>, lo: int, hi: int)
    requires t.Node? && t.Ordered(key, lo, hi)
    ensures forall n :: n in t.Blocks() ==> n in key
    ensures var r := Least(t).block; r in t.Blocks() && lo < key[r] < hi && forall n :: n in t.Blocks() ==> key[r] <= key[n]
  {
    KeysBetween(t, key, lo, hi);
    KeysBetween(t.right, key, key[t.block], hi);
    if t.left != Leaf {
      LeastIsFirst(t.left, key, lo, key[t.block]);
    }
  }
}
