/** The red-black tree itself: cells relinked and recoloured in place, beside a
    ghost tree that says what the links mean. */
module RedBlackTree {
  import opened RedBlackShape
  import opened RedBlackMemory

  class RbTree {
    var root: Ptr
    var mem: Memory
    ghost var tree: Tree

    ghost predicate Valid()
      reads this
    {
      var t := tree;
      At(mem, root, Top, t) && RedBlack(t)
    }

    constructor ()
      ensures Valid() && tree == Nil && mem == map[]
    {
      root, tree, mem := NULL, Nil, map[];
    }

    method ChangeChild(old_: Ptr, new_: Ptr, parent: Ptr, ghost p: Path, ghost below: set<Ptr>)
      requires parent == Up(p, NULL) && old_ in below && old_ != NULL && (parent != NULL ==> parent in mem)
      modifies this`root, this`mem
      ensures old(PathLinked(mem, p, old_, root, NULL)) && PathDistinct(p, below) ==> PathLinked(mem, p, new_, root, NULL)
      ensures Same(old(mem), mem, {parent}) && mem.Keys == old(mem.Keys)
    {
      ghost var m, r := mem, root;
      if parent != NULL {
        if mem[parent].left == old_ {
          mem := mem[parent := mem[parent].(left := new_)];
        } else {
          mem := mem[parent := mem[parent].(right := new_)];
        }
      } else {
        root := new_;
      }
      if PathLinked(m, p, old_, r, NULL) && PathDistinct(p, below) {
        PathCarried(m, mem, p, old_, new_, r, root, NULL, below);
      }
    }

    method RotateSetParents(old_: Ptr, new_: Ptr, red: bool, ghost p: Path, ghost below: set<Ptr>)
      requires PathLinked(mem, p, old_, root, NULL) && PathDistinct(p, below)
      requires old_ in below && new_ in below && old_ != new_ && old_ != NULL && new_ != NULL
      requires old_ in mem && mem[old_].parent == Up(p, NULL) && new_ in mem
      modifies this`root, this`mem
      ensures PathLinked(mem, p, new_, root, NULL)
      ensures Same(old(mem), mem, {old_, new_, Up(p, NULL)})
      ensures mem[new_] == old(mem[new_]).(parent := old(mem[old_].parent), red := old(mem[old_].red))
      ensures mem[old_] == old(mem[old_]).(parent := new_, red := red)
    {
      ghost var m := mem;
      var parent := mem[old_].parent;
      mem := mem[new_ := mem[new_].(parent := mem[old_].parent, red := mem[old_].red)];
      mem := mem[old_ := mem[old_].(parent := new_, red := red)];
      PathKept(m, mem, p, old_, root, below, {old_, new_});
      ChangeChild(old_, new_, parent, p, below);
    }

    /** The child links of a rotation: `tmp` becomes a child of `old_` and `old_` a
        child of `new_`, on the side `onRight`. */
    method Hang(old_: Ptr, new_: Ptr, tmp: Ptr, onRight: bool, blacken: bool)
      requires old_ in mem && new_ in mem && old_ != new_
      requires tmp != NULL ==> tmp in mem && tmp != old_ && tmp != new_
      modifies this`mem
      ensures Same(old(mem), mem, {old_, new_, tmp})
      ensures mem[old_] == if onRight then old(mem[old_]).(left := tmp) else old(mem[old_]).(right := tmp)
      ensures mem[new_] == if onRight then old(mem[new_]).(right := old_) else old(mem[new_]).(left := old_)
      ensures tmp != NULL ==> mem[tmp] == old(mem[tmp]).(parent := old_, red := !blacken && old(mem[tmp]).red)
    {
      if onRight {
        mem := mem[old_ := mem[old_].(left := tmp)];
        mem := mem[new_ := mem[new_].(right := old_)];
      } else {
        mem := mem[old_ := mem[old_].(right := tmp)];
        mem := mem[new_ := mem[new_].(left := old_)];
      }
      if tmp != NULL {
        mem := mem[tmp := mem[tmp].(parent := old_)];
        if blacken {
          mem := mem[tmp := mem[tmp].(red := false)];
        }
      }
    }

    /** Hangs `old_`, with `y` (rooted at `tmp`) as its left subtree, to the right of
        `new_`, and gives `new_` the place and colour of `old_`. */
    method RotateRight(old_: Ptr, new_: Ptr, tmp: Ptr, blacken: bool, red: bool,
                       ghost p: Path, ghost x: Tree, ghost y: Tree, ghost z: Tree)
      requires PathLinked(mem, p, old_, root, NULL) && old_ != NULL && new_ != NULL && new_ in mem
      requires old_ in mem && mem[old_].parent == Up(p, NULL) && mem[old_].right == Root(z) && Linked(mem, z, old_)
      requires mem[new_].left == Root(x) && Linked(mem, x, new_)
      requires tmp == Root(y) && Linked(mem, y, new_) && (blacken ==> !IsRed(y))
      requires PathDistinct(p, Nodes(Pair(x, new_, y, old_, z))) && Distinct(Pair(x, new_, y, old_, z))
      modifies this`root, this`mem
      ensures At(mem, root, p, Bin(x, old(mem[old_].red), new_, Bin(y, red, old_, z)))
      ensures mem.Keys == old(mem.Keys)
    {
      hide PathLinked, PathDistinct, Linked, Nodes, Distinct, At;
      ghost var m, below := mem, Nodes(Pair(x, new_, y, old_, z));
      PairMembers(m, x, new_, y, old_, z, new_);
      UpOutside(p, below);
      Hang(old_, new_, tmp, true, blacken);
      PathKept(m, mem, p, old_, root, below, {old_, new_, tmp});
      RotateSetParents(old_, new_, red, p, below);
      assert Same(m, mem, {old_, new_, tmp, Up(p, NULL)});
      RotatedRight(m, mem, root, p, x, new_, y, old_, z, m[old_].red, red);
    }

    /** The mirror image of RotateRight. */
    method RotateLeft(old_: Ptr, new_: Ptr, tmp: Ptr, blacken: bool, red: bool,
                      ghost p: Path, ghost x: Tree, ghost y: Tree, ghost z: Tree)
      requires PathLinked(mem, p, old_, root, NULL) && old_ != NULL && new_ != NULL && new_ in mem
      requires old_ in mem && mem[old_].parent == Up(p, NULL) && mem[old_].left == Root(x) && Linked(mem, x, old_)
      requires mem[new_].right == Root(z) && Linked(mem, z, new_)
      requires tmp == Root(y) && Linked(mem, y, new_) && (blacken ==> !IsRed(y))
      requires PathDistinct(p, Nodes(Pair(x, old_, y, new_, z))) && Distinct(Pair(x, old_, y, new_, z))
      modifies this`root, this`mem
      ensures At(mem, root, p, Bin(Bin(x, red, old_, y), old(mem[old_].red), new_, z))
      ensures mem.Keys == old(mem.Keys)
    {
      hide PathLinked, PathDistinct, Linked, Nodes, Distinct, At;
      ghost var m, below := mem, Nodes(Pair(x, old_, y, new_, z));
      PairMembers(m, x, old_, y, new_, z, new_);
      UpOutside(p, below);
      Hang(old_, new_, tmp, false, blacken);
      PathKept(m, mem, p, old_, root, below, {old_, new_, tmp});
      RotateSetParents(old_, new_, red, p, below);
      assert Same(m, mem, {old_, new_, tmp, Up(p, NULL)});
      RotatedLeft(m, mem, root, p, x, old_, y, new_, z, m[old_].red, red);
    }

    /** Case 2 of insertion with the parent a left child: `node` rises over
        `parent`, not yet linked to `gparent`. */
    method RotateParentLeft(node: Ptr, parent: Ptr, gparent: Ptr, ghost p: Path, ghost l: Tree, ghost r: Tree, ghost uncle: Tree)
      requires r.Bin? && r.red && r.node == node && !IsRed(r.left)
      requires At(mem, root, p, Bin(Bin(l, true, parent, r), false, gparent, uncle))
      modifies this`mem
      ensures PathLinked(mem, p, gparent, root, NULL) && Linked(mem, uncle, gparent)
      ensures Linked(mem, Bin(l, true, parent, r.left), node) && Linked(mem, r.right, node)
      ensures Same(old(mem), mem, {parent, node, Root(r.left)})
      ensures gparent in mem && mem[gparent] == Cell(Up(p, NULL), false, parent, Root(uncle))
      ensures node in mem && mem[node] == Cell(parent, true, parent, Root(r.right))
    {
      hide PathLinked, PathDistinct;
      ghost var m, t := mem, Bin(l, true, parent, r);
      assert Linked(m, t, gparent) && Linked(m, r, parent);
      assert t == Bin(l, true, parent, Bin(r.left, true, node, r.right));
      PairRegroups(l, parent, r.left, node, r.right, true, true);
      var tmp := mem[node].left;
      Hang(parent, node, tmp, false, true);
      mem := mem[parent := mem[parent].(parent := node, red := true)];
      ghost var changed := {parent, node, tmp};
      assert Same(m, mem, changed);
      PathKept(m, mem, p, gparent, root, Nodes(t) + {gparent} + Nodes(uncle), changed);
      RaisedLeft(m, mem, l, parent, r.left, node, r.right, node, true, {});
      Moved(m, mem, uncle, gparent, gparent, changed);
    }

    /** Cases 2 and 3 of insertion with the parent a left child: `t` is the
        parent's subtree, `uncle` the (black) other side of `gparent`. */
    method InsertRotateRight(node: Ptr, parent: Ptr, gparent: Ptr, ghost p: Path, ghost t: Tree, ghost uncle: Tree)
      requires t.Bin? && t.red && t.node == parent && At(mem, root, p, Bin(t, false, gparent, uncle))
      requires Balanced(t.left) && Balanced(t.right) && node != NULL
      requires if node == Root(t.left) then !IsRed(t.right) else node == Root(t.right) && t.right.red
      modifies this`root, this`mem
      ensures At(mem, root, p, InsertedRight(node, t, gparent, uncle)) && mem.Keys == old(mem.Keys)
    {
      hide PathLinked, PathDistinct;
      ghost var l, r := t.left, t.right;
      assert t == Bin(l, true, parent, r) && Linked(mem, t, gparent) && Linked(mem, r, parent);
      PairRegroups(l, parent, r, gparent, uncle, false, true);
      var par := parent;
      var tmp := mem[par].right;
      if node == tmp {
        RotateParentLeft(node, par, gparent, p, l, r, uncle);
        par := node;
        tmp := mem[node].right;
        assert t == Bin(l, true, parent, Bin(r.left, true, node, r.right));
        PairRegroups(l, parent, r.left, node, r.right, true, true);
        l, r := Bin(l, true, parent, r.left), r.right;
        assert Nodes(Pair(l, par, r, gparent, uncle)) == Nodes(Bin(t, false, gparent, uncle));
      }
      RotateRight(gparent, par, tmp, true, true, p, l, r, uncle);
    }

    /** The mirror image of RotateParentLeft. */
    method RotateParentRight(node: Ptr, parent: Ptr, gparent: Ptr, ghost p: Path, ghost l: Tree, ghost r: Tree, ghost uncle: Tree)
      requires l.Bin? && l.red && l.node == node && !IsRed(l.right)
      requires At(mem, root, p, Bin(uncle, false, gparent, Bin(l, true, parent, r)))
      modifies this`mem
      ensures PathLinked(mem, p, gparent, root, NULL) && Linked(mem, uncle, gparent)
      ensures Linked(mem, l.left, node) && Linked(mem, Bin(l.right, true, parent, r), node)
      ensures Same(old(mem), mem, {parent, node, Root(l.right)})
      ensures gparent in mem && mem[gparent] == Cell(Up(p, NULL), false, Root(uncle), parent)
      ensures node in mem && mem[node] == Cell(parent, true, Root(l.left), parent)
    {
      hide PathLinked, PathDistinct;
      ghost var m, t := mem, Bin(l, true, parent, r);
      assert Linked(m, t, gparent) && Linked(m, l, parent);
      assert t == Bin(Bin(l.left, true, node, l.right), true, parent, r);
      PairRegroups(l.left, node, l.right, parent, r, true, true);
      var tmp := mem[node].right;
      Hang(parent, node, tmp, true, true);
      mem := mem[parent := mem[parent].(parent := node, red := true)];
      ghost var changed := {parent, node, tmp};
      assert Same(m, mem, changed);
      PathKept(m, mem, p, gparent, root, Nodes(uncle) + {gparent} + Nodes(t), changed);
      RaisedRight(m, mem, l.left, node, l.right, parent, r, node, true, {});
      Moved(m, mem, uncle, gparent, gparent, changed);
    }

    /** The mirror image of InsertRotateRight. */
    method InsertRotateLeft(node: Ptr, parent: Ptr, gparent: Ptr, ghost p: Path, ghost t: Tree, ghost uncle: Tree)
      requires t.Bin? && t.red && t.node == parent && At(mem, root, p, Bin(uncle, false, gparent, t))
      requires Balanced(t.left) && Balanced(t.right) && node != NULL
      requires if node == Root(t.right) then !IsRed(t.left) else node == Root(t.left) && t.left.red
      modifies this`root, this`mem
      ensures At(mem, root, p, InsertedLeft(node, t, gparent, uncle)) && mem.Keys == old(mem.Keys)
    {
      hide PathLinked, PathDistinct;
      ghost var l, r := t.left, t.right;
      assert t == Bin(l, true, parent, r) && Linked(mem, t, gparent) && Linked(mem, l, parent);
      PairRegroups(uncle, gparent, l, parent, r, false, true);
      var par := parent;
      var tmp := mem[par].left;
      if node == tmp {
        RotateParentRight(node, par, gparent, p, l, r, uncle);
        par := node;
        tmp := mem[node].left;
        assert t == Bin(Bin(l.left, true, node, l.right), true, parent, r);
        PairRegroups(l.left, node, l.right, parent, r, true, true);
        l, r := l.left, Bin(l.right, true, parent, r);
        PairRegroups(uncle, gparent, l, par, r, false, false);
        assert Nodes(Pair(uncle, gparent, l, par, r)) == Nodes(Bin(uncle, false, gparent, t));
      }
      RotateLeft(gparent, par, tmp, true, true, p, uncle, l, r);
    }

    /** Case 1 of insertion: both children of `gparent` turn black and it red. */
    method FlipColors(gparent: Ptr, parent: Ptr, uncle: Ptr, ghost p: Path, ghost a: Tree, ghost b: Tree)
      requires At(mem, root, p, Bin(a, false, gparent, b)) && a.Bin? && b.Bin?
      requires (parent == a.node && uncle == b.node) || (parent == b.node && uncle == a.node)
      modifies this`mem
      ensures At(mem, root, p, Bin(Painted(a, false), true, gparent, Painted(b, false)))
      ensures mem.Keys == old(mem.Keys)
    {
      hide PathLinked, PathDistinct;
      ghost var m := mem;
      assert Linked(m, a, gparent) && Linked(m, b, gparent);
      mem := mem[uncle := mem[uncle].(parent := gparent, red := false)];
      mem := mem[parent := mem[parent].(parent := gparent, red := false)];
      mem := mem[gparent := mem[gparent].(red := true)];
      Flipped(m, mem, root, p, a, gparent, b);
    }

    /** Restores the tree after `inserted` was linked, red, into the hole of `p0`. */
    method InsertColor(inserted: Ptr, ghost p0: Path)
      requires At(mem, root, p0, Bin(Nil, true, inserted, Nil)) && PathBalanced(p0, 0)
      modifies this
      ensures Valid() && mem.Keys == old(mem.Keys)
      ensures InOrder(tree) == Before(p0) + [inserted] + After(p0)
    {
      LeafFits(inserted);
      hide Linked, PathLinked, PathDistinct, Distinct, Nodes, PathNodes, PathBalanced, Plug, At;
      hide Balanced, BlackHeight, InOrder, Before, After, InsertedRight, InsertedLeft;
      ghost var p, t := p0, Bin(Nil, true, inserted, Nil);
      InsertView(mem, root, p, t);
      var node, parent := inserted, mem[inserted].parent;
      while true
        invariant At(mem, root, p, t) && IsRed(t) && t.node == node && parent == Up(p, NULL)
        invariant Balanced(t) && PathBalanced(p, BlackHeight(t)) && mem.Keys == old(mem.Keys)
        invariant Before(p) + InOrder(t) + After(p) == Before(p0) + [inserted] + After(p0)
        decreases p
      {
        InsertView(mem, root, p, t);
        if parent == NULL {
          RootPainted(mem, root, t);
          mem := mem[node := mem[node].(parent := NULL, red := false)];
          tree := Painted(t, false);
          break;
        }
        if !mem[parent].red {
          tree := Plug(p, t);
          Whole(mem, root, p, t);
          break;
        }
        var gparent := mem[parent].parent;
        var tmp := mem[gparent].right;
        ghost var up, tp := p.up.up, ParentTree(p, t);
        Climb(p, t);
        Climb(p.up, tp);
        if parent != tmp {
          ghost var uncle := p.up.right;
          if tmp != NULL && mem[tmp].red {
            FlippedFits(tp, gparent, uncle);
            FlipColors(gparent, parent, tmp, up, tp, uncle);
            p, t := up, Bin(Painted(tp, false), true, gparent, Painted(uncle, false));
            InsertView(mem, root, p, t);
            node := gparent;
            parent := mem[node].parent;
            continue;
          }
          InsertedRightFits(node, tp, gparent, uncle);
          InsertRotateRight(node, parent, gparent, up, tp, uncle);
          p, t := up, InsertedRight(node, tp, gparent, uncle);
        } else {
          ghost var uncle := p.up.left;
          tmp := mem[gparent].left;
          if tmp != NULL && mem[tmp].red {
            FlippedFits(uncle, gparent, tp);
            FlipColors(gparent, parent, tmp, up, uncle, tp);
            p, t := up, Bin(Painted(uncle, false), true, gparent, Painted(tp, false));
            InsertView(mem, root, p, t);
            node := gparent;
            parent := mem[node].parent;
            continue;
          }
          InsertedLeftFits(node, tp, gparent, uncle);
          InsertRotateLeft(node, parent, gparent, up, tp, uncle);
          p, t := up, InsertedLeft(node, tp, gparent, uncle);
        }
        tree := Plug(p, t);
        Whole(mem, root, p, t);
        break;
      }
    }

    /** Case 3 of erasing on the left: the sibling's left child rises over it. */
    method RotateSiblingRight(parent: Ptr, sibling: Ptr, tmp2: Ptr, ghost p: Path, ghost red: bool, ghost t: Tree, ghost s: Tree)
      requires At(mem, root, p, Bin(t, red, parent, s)) && s.Bin? && s.node == sibling && !s.red
      requires s.left.Bin? && s.left.node == tmp2 && s.left.red && !IsRed(s.left.right)
      modifies this`mem
      ensures PathLinked(mem, p, parent, root, NULL) && mem.Keys == old(mem.Keys)
      ensures parent in mem && mem[parent] == Cell(Up(p, NULL), red, Root(t), tmp2)
      ensures tmp2 in mem && mem[tmp2] == Cell(sibling, true, Root(s.left.left), sibling)
      ensures Linked(mem, t, parent) && Linked(mem, s.left.left, tmp2)
      ensures Linked(mem, Bin(s.left.right, false, sibling, s.right), parent)
    {
      OpenAt(mem, root, p, t, red, parent, s);
      OpenLinked(mem, s, parent);
      OpenLinked(mem, s.left, sibling);
      hide PathLinked, PathDistinct, Linked, Distinct, Nodes;
      ghost var m := mem;
      var tmp1 := mem[tmp2].right;
      Hang(sibling, tmp2, tmp1, true, true);
      mem := mem[parent := mem[parent].(right := tmp2)];
      SiblingRaisedRight(m, mem, root, p, t, red, parent, s);
    }

    /** The mirror image of RotateSiblingRight. */
    method RotateSiblingLeft(parent: Ptr, sibling: Ptr, tmp2: Ptr, ghost p: Path, ghost red: bool, ghost t: Tree, ghost s: Tree)
      requires At(mem, root, p, Bin(s, red, parent, t)) && s.Bin? && s.node == sibling && !s.red
      requires s.right.Bin? && s.right.node == tmp2 && s.right.red && !IsRed(s.right.left)
      modifies this`mem
      ensures PathLinked(mem, p, parent, root, NULL) && mem.Keys == old(mem.Keys)
      ensures parent in mem && mem[parent] == Cell(Up(p, NULL), red, tmp2, Root(t))
      ensures tmp2 in mem && mem[tmp2] == Cell(sibling, true, sibling, Root(s.right.right))
      ensures Linked(mem, t, parent) && Linked(mem, s.right.right, tmp2)
      ensures Linked(mem, Bin(s.left, false, sibling, s.right.left), parent)
    {
      OpenAt(mem, root, p, s, red, parent, t);
      OpenLinked(mem, s, parent);
      OpenLinked(mem, s.right, sibling);
      hide PathLinked, PathDistinct, Linked, Distinct, Nodes;
      ghost var m := mem;
      var tmp1 := mem[tmp2].left;
      Hang(sibling, tmp2, tmp1, false, true);
      mem := mem[parent := mem[parent].(left := tmp2)];
      SiblingRaisedLeft(m, mem, root, p, t, red, parent, s);
    }

    /** Cases 3 and 4 of erasing on the left: the sibling `s` has a red child, the
        short side `t` gains a black node. */
    method EraseRotateLeft(parent: Ptr, sibling: Ptr, ghost p: Path, ghost red: bool, ghost t: Tree, ghost s: Tree)
      requires At(mem, root, p, Bin(t, red, parent, s)) && SubtreeView(mem, s, parent) && s.node == sibling && !s.red
      requires IsRed(s.right) || IsRed(s.left)
      modifies this`root, this`mem
      ensures At(mem, root, p, ErasedLeft(t, red, parent, s)) && mem.Keys == old(mem.Keys)
    {
      OpenAt(mem, root, p, t, red, parent, s);
      OpenLinked(mem, s, parent);
      EraseRegroups(t, parent, s);
      hide PathLinked, PathDistinct, Linked, Distinct, Nodes, Balanced, BlackHeight, At;
      ghost var below := Nodes(t) + {parent} + Nodes(s);
      var sib, tmp1 := sibling, mem[sibling].right;
      ghost var y, z, q := s.left, s.right, sibling;
      if tmp1 == NULL || !mem[tmp1].red {
        var tmp2 := mem[sib].left;
        RotateSiblingRight(parent, sib, tmp2, p, red, t, s);
        tmp1, sib := sib, tmp2;
        y, z, q := s.left.left, Bin(s.left.right, false, sibling, s.right), parent;
      }
      assert PairApart(t, parent, y, sib, z) && Nodes(Pair(t, parent, y, sib, z)) == below;
      RaiseLeft(parent, sib, tmp1, p, t, y, z, q);
    }

    /** The mirror image of RaiseRight. */
    method RaiseLeft(parent: Ptr, sib: Ptr, tmp1: Ptr, ghost p: Path, ghost t: Tree, ghost y: Tree, ghost z: Tree, ghost q: Ptr)
      requires PathLinked(mem, p, parent, root, NULL) && PathDistinct(p, Nodes(Pair(t, parent, y, sib, z)))
      requires parent != NULL && parent in mem && mem[parent].parent == Up(p, NULL) && mem[parent].left == Root(t)
      requires sib != NULL && sib in mem && mem[sib].right == tmp1 && mem[sib].left == Root(y)
      requires Linked(mem, t, parent) && Linked(mem, y, sib) && Linked(mem, z, q)
      requires z.Bin? && z.node == tmp1 && tmp1 in mem && PairApart(t, parent, y, sib, z)
      modifies this`root, this`mem
      ensures At(mem, root, p, Bin(Bin(t, false, parent, y), old(mem[parent].red), sib, Painted(z, false))) && mem.Keys == old(mem.Keys)
    {
      hide PathLinked, PathDistinct, Linked, Distinct, Nodes, At;
      RootInside(z);
      PairRegroups(t, parent, y, sib, z, false, false);
      ghost var m := mem;
      mem := mem[tmp1 := mem[tmp1].(parent := sib, red := false)];
      PairPainted(t, parent, y, sib, z);
      FarChildPainted(m, mem, root, p, parent, Nodes(Pair(t, parent, y, sib, z)), t, parent, y, sib, z, q, sib);
      RotateLeft(parent, sib, mem[sib].left, false, false, p, t, y, Painted(z, false));
    }

    /** The mirror image of EraseRotateLeft. */
    method EraseRotateRight(parent: Ptr, sibling: Ptr, ghost p: Path, ghost red: bool, ghost t: Tree, ghost s: Tree)
      requires At(mem, root, p, Bin(s, red, parent, t)) && SubtreeView(mem, s, parent) && s.node == sibling && !s.red
      requires IsRed(s.right) || IsRed(s.left)
      modifies this`root, this`mem
      ensures At(mem, root, p, ErasedRight(s, red, parent, t)) && mem.Keys == old(mem.Keys)
    {
      OpenAt(mem, root, p, s, red, parent, t);
      OpenLinked(mem, s, parent);
      EraseRegroupsRight(s, parent, t);
      hide PathLinked, PathDistinct, Linked, Distinct, Nodes, Balanced, BlackHeight, At;
      ghost var below := Nodes(s) + {parent} + Nodes(t);
      var sib, tmp1 := sibling, mem[sibling].left;
      ghost var y, x, q := s.right, s.left, sibling;
      if tmp1 == NULL || !mem[tmp1].red {
        var tmp2 := mem[sib].right;
        RotateSiblingLeft(parent, sib, tmp2, p, red, t, s);
        tmp1, sib := sib, tmp2;
        y, x, q := s.right.right, Bin(s.left, false, sibling, s.right.left), parent;
      }
      assert PairApart(x, sib, y, parent, t) && Nodes(Pair(x, sib, y, parent, t)) == below;
      RaiseRight(parent, sib, tmp1, p, x, y, t, q);
    }

    /** The far child is painted black, and the sibling rises over the parent. */
    method RaiseRight(parent: Ptr, sib: Ptr, tmp1: Ptr, ghost p: Path, ghost x: Tree, ghost y: Tree, ghost t: Tree, ghost q: Ptr)
      requires PathLinked(mem, p, parent, root, NULL) && PathDistinct(p, Nodes(Pair(x, sib, y, parent, t)))
      requires parent != NULL && parent in mem && mem[parent].parent == Up(p, NULL) && mem[parent].right == Root(t)
      requires sib != NULL && sib in mem && mem[sib].left == tmp1 && mem[sib].right == Root(y)
      requires Linked(mem, t, parent) && Linked(mem, y, sib) && Linked(mem, x, q)
      requires x.Bin? && x.node == tmp1 && tmp1 in mem && PairApart(x, sib, y, parent, t)
      modifies this`root, this`mem
      ensures At(mem, root, p, Bin(Painted(x, false), old(mem[parent].red), sib, Bin(y, false, parent, t))) && mem.Keys == old(mem.Keys)
    {
      hide PathLinked, PathDistinct, Linked, Distinct, Nodes, At;
      RootInside(x);
      PairRegroups(x, sib, y, parent, t, false, false);
      ghost var m := mem;
      mem := mem[tmp1 := mem[tmp1].(parent := sib, red := false)];
      PairPainted(x, sib, y, parent, t);
      FarChildPainted(m, mem, root, p, parent, Nodes(Pair(x, sib, y, parent, t)), t, parent, y, sib, x, q, sib);
      RotateRight(parent, sib, mem[sib].right, false, false, p, Painted(x, false), y, t);
    }

    /** Case 1 of erasing on the left. */
    method LiftSiblingLeft(parent: Ptr, sibling: Ptr, ghost p: Path, ghost t: Tree) returns (tmp1: Ptr)
      requires At(mem, root, p, t) && p.InLeft? && p.node == parent && !p.red && PathBalanced(p, BlackHeight(t) + 1)
      requires IsRed(p.right) && p.right.node == sibling
      modifies this`root, this`mem
      ensures At(mem, root, SiblingAbove(p), t) && mem.Keys == old(mem.Keys)
      ensures tmp1 == Root(p.right.left)
    {
      ghost var s := p.right;
      SeenAcross(mem, root, p, t);
      OpenAt(mem, root, p.up, t, false, parent, s);
      OpenLinked(mem, s, parent);
      EraseRegroups(t, parent, s);
      PairRegroups(t, parent, s.left, sibling, s.right, false, false);
      hide PathLinked, PathDistinct, Linked, Distinct, Nodes, At;
      tmp1 := mem[sibling].left;
      RotateLeft(parent, sibling, tmp1, true, true, p.up, t, s.left, s.right);
      SeenAcross(mem, root, SiblingAbove(p), t);
      SeenAcross(mem, root, SiblingAbove(p).up, Bin(t, true, parent, s.left));
    }

    /** The mirror image of LiftSiblingLeft. */
    method LiftSiblingRight(parent: Ptr, sibling: Ptr, ghost p: Path, ghost t: Tree) returns (tmp1: Ptr)
      requires At(mem, root, p, t) && p.InRight? && p.node == parent && !p.red && PathBalanced(p, BlackHeight(t) + 1)
      requires IsRed(p.left) && p.left.node == sibling
      modifies this`root, this`mem
      ensures At(mem, root, SiblingAbove(p), t) && mem.Keys == old(mem.Keys)
      ensures tmp1 == Root(p.left.right)
    {
      ghost var s := p.left;
      SeenAcross(mem, root, p, t);
      OpenAt(mem, root, p.up, s, false, parent, t);
      OpenLinked(mem, s, parent);
      EraseRegroupsRight(s, parent, t);
      PairRegroups(s.left, sibling, s.right, parent, t, false, false);
      hide PathLinked, PathDistinct, Linked, Distinct, Nodes, At;
      tmp1 := mem[sibling].right;
      RotateRight(parent, sibling, tmp1, true, true, p.up, s.left, s.right, t);
      SeenAcross(mem, root, SiblingAbove(p), t);
      SeenAcross(mem, root, SiblingAbove(p).up, Bin(s.right, true, parent, t));
    }

    /** Case 2 of erasing, the sibling's part: it turns red. */
    method ReddenSibling(parent: Ptr, sibling: Ptr, ghost p: Path, ghost t: Tree)
      requires At(mem, root, p, t) && !p.Top? && p.node == parent && Sibling(p).Bin? && Sibling(p).node == sibling
      modifies this`mem
      ensures At(mem, root, p.up, Reddened(p, t)) && mem.Keys == old(mem.Keys)
    {
      ghost var s := Sibling(p);
      SeenAcross(mem, root, p, t);
      OpenLinked(mem, s, parent);
      PaintedAt(mem, root, Across(p, t), s, true);
      mem := mem[sibling := mem[sibling].(parent := parent, red := true)];
      SeenAcross(mem, root, Across(p, t), Painted(s, true));
    }

    /** The invariant of the erasing loop: every path through `t`, below the end
        of `p`, has one black node too few. */
    ghost predicate Short(p: Path, t: Tree)
      reads this
    {
      At(mem, root, p, t) && !p.Top? && Balanced(t) && !IsRed(t) && PathBalanced(p, BlackHeight(t) + 1)
    }

    /** One iteration of the erasing loop, the short subtree `t` on the left. Either
        the tree is whole again, or the parent's subtree is now the short one. */
    method EraseStepLeft(parent: Ptr, ghost p: Path, ghost t: Tree) returns (again: bool, ghost t': Tree)
      requires Short(p, t) && p.InLeft? && parent == p.node
      modifies this
      ensures mem.Keys == old(mem.Keys)
      ensures again ==> Short(p.up, t') && t'.Bin? && t'.node == parent
      ensures again ==> Before(p.up) + InOrder(t') + After(p.up) == Before(p) + InOrder(t) + After(p)
      ensures !again ==> Valid() && InOrder(tree) == Before(p) + InOrder(t) + After(p)
    {
      hide Linked, PathLinked, PathDistinct, Distinct, Nodes, PathNodes, PathBalanced, Plug, At;
      hide Balanced, BlackHeight, InOrder, Before, After, ErasedLeft, ErasedRight;
      EraseView(mem, root, p, t);
      ghost var q := p;
      var sibling := mem[parent].right;
      if mem[sibling].red {
        SiblingAboveFits(q, t);
        sibling := LiftSiblingLeft(parent, sibling, q, t);
        q := SiblingAbove(q);
        EraseView(mem, root, q, t);
      }
      ghost var s := q.right;
      Climb(q, t);
      t' := Painted(Reddened(q, t), false);
      var tmp1 := mem[sibling].right;
      if tmp1 == NULL || !mem[tmp1].red {
        var tmp2 := mem[sibling].left;
        if tmp2 == NULL || !mem[tmp2].red {
          ReddenedFits(q, t);
          ReddenSibling(parent, sibling, q, t);
          ParentPainted(mem, root, q, t);
          if mem[parent].red {
            mem := mem[parent := mem[parent].(red := false)];
          } else if mem[parent].parent != NULL {
            return true, t';
          }
          tree := Plug(q.up, t');
          Whole(mem, root, q.up, t');
          return false, t';
        }
      }
      ErasedLeftFits(t, q.red, parent, s);
      EraseRotateLeft(parent, sibling, q.up, q.red, t, s);
      t' := ErasedLeft(t, q.red, parent, s);
      tree := Plug(q.up, t');
      Whole(mem, root, q.up, t');
      again := false;
    }

    /** One iteration of the erasing loop, the short subtree `t` on the right. Either
        the tree is whole again, or the parent's subtree is now the short one. */
    method EraseStepRight(parent: Ptr, ghost p: Path, ghost t: Tree) returns (again: bool, ghost t': Tree)
      requires Short(p, t) && p.InRight? && parent == p.node
      modifies this
      ensures mem.Keys == old(mem.Keys)
      ensures again ==> Short(p.up, t') && t'.Bin? && t'.node == parent
      ensures again ==> Before(p.up) + InOrder(t') + After(p.up) == Before(p) + InOrder(t) + After(p)
      ensures !again ==> Valid() && InOrder(tree) == Before(p) + InOrder(t) + After(p)
    {
      hide Linked, PathLinked, PathDistinct, Distinct, Nodes, PathNodes, PathBalanced, Plug, At;
      hide Balanced, BlackHeight, InOrder, Before, After, ErasedLeft, ErasedRight;
      EraseView(mem, root, p, t);
      ghost var q := p;
      var sibling := mem[parent].left;
      if mem[sibling].red {
        SiblingAboveFits(q, t);
        sibling := LiftSiblingRight(parent, sibling, q, t);
        q := SiblingAbove(q);
        EraseView(mem, root, q, t);
      }
      ghost var s := q.left;
      Climb(q, t);
      t' := Painted(Reddened(q, t), false);
      var tmp1 := mem[sibling].left;
      if tmp1 == NULL || !mem[tmp1].red {
        var tmp2 := mem[sibling].right;
        if tmp2 == NULL || !mem[tmp2].red {
          ReddenedFits(q, t);
          ReddenSibling(parent, sibling, q, t);
          ParentPainted(mem, root, q, t);
          if mem[parent].red {
            mem := mem[parent := mem[parent].(red := false)];
          } else if mem[parent].parent != NULL {
            return true, t';
          }
          tree := Plug(q.up, t');
          Whole(mem, root, q.up, t');
          return false, t';
        }
      }
      ErasedRightFits(s, q.red, parent, t);
      EraseRotateRight(parent, sibling, q.up, q.red, t, s);
      t' := ErasedRight(s, q.red, parent, t);
      tree := Plug(q.up, t');
      Whole(mem, root, q.up, t');
      again := false;
    }

    /** Restores the tree after a black node was taken out of the hole of `p0`. */
    method EraseColor(start: Ptr, ghost p0: Path)
      requires At(mem, root, p0, Nil) && !p0.Top? && p0.node == start && PathBalanced(p0, 1)
      modifies this
      ensures Valid() && mem.Keys == old(mem.Keys)
      ensures InOrder(tree) == Before(p0) + After(p0)
    {
      EmptyFits(p0);
      hide Linked, PathLinked, PathDistinct, Distinct, Nodes, PathNodes, PathBalanced, Plug, At;
      hide Balanced, BlackHeight, InOrder, Before, After;
      var node, parent := NULL, start;
      ghost var p, t := p0, Nil;
      while true
        invariant Short(p, t) && parent == p.node && node == Root(t) && mem.Keys == old(mem.Keys)
        invariant Before(p) + InOrder(t) + After(p) == Before(p0) + After(p0)
        decreases p
      {
        EraseView(mem, root, p, t);
        var again;
        var sibling := mem[parent].right;
        if node != sibling {
          again, t := EraseStepLeft(parent, p, t);
        } else {
          again, t := EraseStepRight(parent, p, t);
        }
        if !again {
          break;
        }
        p := p.up;
        EraseView(mem, root, p, t);
        ParentSeen(mem, root, p, t);
        node := parent;
        parent := mem[node].parent;
      }
    }

    /** The leftmost node under the right child of `node`, if that child has a left child. */
    method Successor(node: Ptr, child: Ptr, ghost p: Path, ghost t: Tree)
      returns (parent: Ptr, successor: Ptr, ghost r: Path, ghost st: Tree)
      requires At(mem, root, p, t) && t.Bin? && t.node == node && t.left.Bin?
      requires t.right.Bin? && t.right.node == child && t.right.left.Bin?
      ensures !r.Top? && parent == r.node && First(r) == child && st.Bin? && successor == st.node
      ensures Spine(mem, root, p, r, t.left, t.red, node, st) && SpineTree(p, r, t, st) == Plug(p, t)
    {
      ghost var o := InRight(p, t.left, t.red, node);
      SpineStart(mem, root, p, t);
      hide Nodes, PathNodes, Distinct, PathDistinct, PathLinked, Linked, At, Plug;
      ghost var top := t.right;
      OpenLinkedAt(mem, root, o, top);
      parent, successor := child, mem[child].left;
      DescendLeft(mem, root, Top, o, top);
      r, st := InLeft(Top, top.red, child, top.right), top.left;
      OpenLinkedAt(mem, root, Append(r, o), st);
      var tmp := mem[successor].left;
      while tmp != NULL
        invariant AllLeft(r) && !r.Top? && parent == r.node && First(r) == child
        invariant st.Bin? && successor == st.node && tmp == Root(st.left) && (tmp == NULL <==> st.left.Nil?)
        invariant At(mem, root, Append(r, o), st) && Plug(Append(r, o), st) == Plug(p, t)
        decreases st
      {
        parent, successor := successor, tmp;
        DescendLeft(mem, root, r, o, st);
        r, st := InLeft(r, st.red, st.node, st.right), st.left;
        OpenLinkedAt(mem, root, Append(r, o), st);
        tmp := mem[tmp].left;
      }
    }

    /** Finds the successor of `node` and links it to the children of `node`. */
    method DetachSuccessor(node: Ptr, ghost p: Path, ghost t: Tree)
      returns (parent: Ptr, successor: Ptr, child2: Ptr, ghost r: Path, ghost st: Tree)
      requires At(mem, root, p, t) && t.Bin? && t.node == node && t.left.Bin? && t.right.Bin?
      modifies this`mem
      ensures st.Bin? && successor == st.node && child2 == Root(st.right)
      ensures parent == if r.Top? then successor else r.node
      ensures Spine(old(mem), root, p, r, t.left, t.red, node, st) && SpineTree(p, r, t, st) == Plug(p, t)
      ensures Detached(old(mem), mem, r, t.left, st)
    {
      ghost var m, l := mem, t.left;
      r, st := Top, t.right;
      SpineStart(mem, root, p, t);
      hide Spine, SpineTree, At, Plug, Append, Detached, Raised, Same;
      var child := mem[node].right;
      var tmp := mem[child].left;
      parent, successor, child2 := child, child, mem[child].right;
      if tmp != NULL {
        parent, successor, r, st := Successor(node, child, p, t);
        SuccessorApart(m, root, p, r, l, t.red, node, st);
        child2 := mem[successor].right;
        mem := mem[parent := mem[parent].(left := child2)];
        mem := mem[successor := mem[successor].(right := child)];
        mem := mem[child := mem[child].(parent := successor)];
      } else {
        SuccessorApart(m, root, p, r, l, t.red, node, st);
      }
      tmp := mem[node].left;
      RaisedCells(m, mem, p, r, l, node, st);
      mem := mem[successor := mem[successor].(left := tmp)];
      mem := mem[tmp := mem[tmp].(parent := successor)];
    }

    /** The successor's child and the successor itself get their new parents and colours. */
    method Settle(successor: Ptr, child2: Ptr, parent: Ptr, pc: Cell) returns (rebalance: Ptr)
      requires successor in mem && (child2 != NULL ==> child2 in mem)
      modifies this`mem
      ensures mem == Placed(old(mem), successor, child2, parent, pc.parent, pc.red) && mem.Keys == old(mem.Keys)
      ensures rebalance == if child2 == NULL && !old(mem[successor]).red then parent else NULL
    {
      if child2 != NULL {
        mem := mem[child2 := mem[child2].(parent := parent, red := false)];
        rebalance := NULL;
      } else {
        rebalance := if !mem[successor].red then parent else NULL;
      }
      mem := mem[successor := mem[successor].(parent := pc.parent, red := pc.red)];
    }

    /** Cases 2 and 3 of unlinking: `node` has two children and its successor takes
        its place and colour. */
    method UnlinkSuccessor(node: Ptr, ghost p: Path, ghost t: Tree) returns (rebalance: Ptr, ghost q: Path, ghost c: Tree)
      requires At(mem, root, p, t) && t.Bin? && t.node == node && t.left.Bin? && t.right.Bin? && RedBlack(Plug(p, t))
      modifies this`root, this`mem
      ensures Unlinked(mem, root, p, t, rebalance, q, c) && mem.Keys == old(mem.Keys)
    {
      ghost var m, root0, l := mem, root, t.left;
      OpenLinkedAt(mem, root, p, t);
      hide Placed, Painted, Same, Spine, SpineNodes, SpineTree, RedBlack, Nodes, PathNodes, Distinct, PathDistinct, PathLinked, Linked, At, Balanced, InOrder, Plug, Append, AllLeft, Unlinked, Detached, PathBalanced, BlackHeight;
      var parent, successor, child2;
      ghost var r, st;
      parent, successor, child2, r, st := DetachSuccessor(node, p, t);
      DetachedView(m, mem, root, p, r, l, t.red, node, st);
      ghost var m1 := mem;
      var pc := mem[node];
      var tmp := pc.parent;
      ChangeChild(node, successor, tmp, p, SpineNodes(r, l, node, st));
      ghost var m2 := mem;
      rebalance := Settle(successor, child2, parent, pc);
      q, c := Append(r, InRight(p, l, t.red, successor)), Painted(st.right, false);
      SuccessorTaken(m, m1, m2, mem, root0, root, p, r, t, st, parent);
    }

    /** Case 1 of unlinking: `node` has at most one child. */
    method UnlinkOnly(node: Ptr, ghost p: Path, ghost t: Tree) returns (rebalance: Ptr, ghost q: Path, ghost c: Tree)
      requires At(mem, root, p, t) && t.Bin? && t.node == node && RedBlack(Plug(p, t))
      requires t.left.Nil? || t.right.Nil?
      modifies this`root, this`mem
      ensures Unlinked(mem, root, p, t, rebalance, q, c) && mem.Keys == old(mem.Keys)
    {
      ghost var m, root0 := mem, root;
      OpenAt(mem, root, p, t.left, t.red, node, t.right);
      OpenLinkedAt(mem, root, p, t);
      OnlyChildView(mem, root, p, t, t.left);
      OnlyChildView(mem, root, p, t, t.right);
      UpInside(mem, root, p, t);
      hide Distinct, PathDistinct, PathNodes, Linked, PathLinked, At, Plug, RedBlack, Unlinked, Balanced;
      var child, tmp := mem[node].right, mem[node].left;
      var pc := mem[node];
      var parent := pc.parent;
      if tmp == NULL {
        ChangeChild(node, child, parent, p, Nodes(t));
        ghost var m1 := mem;
        if child != NULL {
          mem := mem[child := mem[child].(parent := pc.parent, red := pc.red)];
          rebalance := NULL;
        } else {
          rebalance := if !pc.red then parent else NULL;
        }
        PathKept(m1, mem, p, child, root, Nodes(t), {child});
        OnlyChildTaken(m, mem, root0, root, p, t, t.right);
        q, c := p, Painted(t.right, false);
      } else {
        mem := mem[tmp := mem[tmp].(parent := pc.parent, red := pc.red)];
        PathKept(m, mem, p, node, root, Nodes(t), {tmp});
        ChangeChild(node, tmp, parent, p, Nodes(t));
        rebalance := NULL;
        OnlyChildTaken(m, mem, root0, root, p, t, t.left);
        q, c := p, Painted(t.left, false);
      }
    }

    /** Takes `node` out of the tree. */
    method Erase(node: Ptr)
      requires Valid() && node in Nodes(tree)
      modifies this
      ensures Valid() && mem.Keys == old(mem.Keys)
      ensures InOrder(tree) == Without(old(InOrder(tree)), node)
    {
      ghost var p, t := Locate(tree, Top, node);
      Focus(mem, root, p, t);
      PlugInOrder(p, t);
      ErasedInOrder(p, t);
      OpenLinkedAt(mem, root, p, t);
      hide Nodes, PathNodes, Distinct, PathDistinct, Linked, PathLinked, At, Plug, Balanced, InOrder, Before, After;
      var rebalance;
      ghost var q, c;
      if mem[node].left == NULL || mem[node].right == NULL {
        rebalance, q, c := UnlinkOnly(node, p, t);
      } else {
        rebalance, q, c := UnlinkSuccessor(node, p, t);
      }
      if rebalance != NULL {
        EmptyFits(q);
        EraseColor(rebalance, q);
      } else {
        tree := Plug(q, c);
        Whole(mem, root, q, c);
      }
    }

    /** Puts a new red leaf into the empty place under `parent` that `p` leads to. */
    method Link(node: Ptr, parent: Ptr, onLeft: bool, ghost p: Path)
      requires Valid() && Plug(p, Nil) == tree && parent == Up(p, NULL) && (parent != NULL ==> onLeft == p.InLeft?)
      requires node != NULL && node !in Nodes(tree)
      modifies this
      ensures At(mem, root, p, Bin(Nil, true, node, Nil)) && PathBalanced(p, 0)
      ensures mem.Keys == old(mem.Keys) + {node}
    {
      ghost var m := mem;
      Focus(m, root, p, Nil);
      PlugRedBlack(p, Nil);
      mem := mem[node := Cell(parent, true, NULL, NULL)];
      if parent == NULL {
        root := node;
      } else if onLeft {
        mem := mem[parent := mem[parent].(left := node)];
      } else {
        mem := mem[parent := mem[parent].(right := node)];
      }
      Linked0(m, mem, old(root), root, p, node);
    }

    /** The leftmost node. */
    method Leftmost() returns (n: Ptr)
      requires Valid()
      ensures tree.Nil? <==> n == NULL
      ensures tree.Bin? ==> InOrder(tree) != [] && n == InOrder(tree)[0] && n in Nodes(tree)
    {
      n := root;
      if n == NULL {
        return;
      }
      ghost var p, t := Top, tree;
      PlugInOrder(p, t);
      OpenLinkedAt(mem, root, p, t);
      while mem[n].left != NULL
        invariant At(mem, root, p, t) && Plug(p, t) == tree && t.Bin? && t.node == n && n in mem
        invariant Before(p) == [] && (t.left.Nil? <==> mem[n].left == NULL) && mem[n].left == Root(t.left)
        decreases t
      {
        n := mem[n].left;
        SeenAcross(mem, root, InLeft(p, t.red, t.node, t.right), t.left);
        p, t := InLeft(p, t.red, t.node, t.right), t.left;
        OpenLinkedAt(mem, root, p, t);
      }
      PlugInOrder(p, t);
      OnlyRight(t);
      InOrderMember(tree, n);
    }
  }
}
