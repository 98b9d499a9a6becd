/** The mathematical side of the intrusive red-black tree: the ghost trees that
    stand beside the linked nodes, and the paths (trees with one hole) that the
    rebalancing loops climb. Nothing here reads the nodes' memory. */
module RedBlackShape {
  import opened Collections
  import Words

  /** A node's address; 0 is the null pointer. */
  type Ptr = nat

  const NULL: Ptr := 0

  datatype Tree = Nil | Bin(left: Tree, red: bool, node: Ptr, right: Tree)

  /** A tree with one subtree missing, innermost step first. */
  datatype Path =
    | Top
    | InLeft(up: Path, red: bool, node: Ptr, right: Tree)
    | InRight(up: Path, left: Tree, red: bool, node: Ptr)

  ghost function Root(t: Tree): Ptr {
    if t.Nil? then NULL else t.node
  }

  ghost function Nodes(t: Tree): set<Ptr> {
    if t.Nil? then {} else Nodes(t.left) + {t.node} + Nodes(t.right)
  }

  lemma RootInside(t: Tree)
    ensures t.Bin? ==> Root(t) in Nodes(t)
  {
  }

  ghost function PathNodes(p: Path): set<Ptr> {
    match p
    case Top => {}
    case InLeft(up, _, n, r) => PathNodes(up) + {n} + Nodes(r)
    case InRight(up, l, _, n) => PathNodes(up) + Nodes(l) + {n}
  }

  ghost function InOrder(t: Tree): seq<Ptr> {
    if t.Nil? then [] else InOrder(t.left) + [t.node] + InOrder(t.right)
  }

  /** The nodes in order before the hole, and after it. */
  ghost function Before(p: Path): seq<Ptr> {
    match p
    case Top => []
    case InLeft(up, _, _, _) => Before(up)
    case InRight(up, l, _, n) => Before(up) + InOrder(l) + [n]
  }

  ghost function After(p: Path): seq<Ptr> {
    match p
    case Top => []
    case InLeft(up, _, n, r) => [n] + InOrder(r) + After(up)
    case InRight(up, _, _, _) => After(up)
  }

  ghost function Plug(p: Path, t: Tree): Tree {
    match p
    case Top => t
    case InLeft(up, red, n, r) => Plug(up, Bin(t, red, n, r))
    case InRight(up, l, red, n) => Plug(up, Bin(l, red, n, t))
  }

  /** The node above the hole; `top` when the hole is the whole tree. */
  ghost function Up(p: Path, top: Ptr): Ptr {
    if p.Top? then top else p.node
  }

  ghost predicate Distinct(t: Tree) {
    t.Bin? ==>
      var l, r := Nodes(t.left), Nodes(t.right);
      Distinct(t.left) && Distinct(t.right) && t.node !in l && t.node !in r && l !! r
  }

  /** The nodes of `p` are distinct, and none is in `below`. */
  ghost predicate PathDistinct(p: Path, below: set<Ptr>)
    ensures PathDistinct(p, below) ==> PathNodes(p) !! below
  {
    match p
    case Top => true
    case InLeft(up, _, n, r) =>
      var all := below + {n} + Nodes(r);
      && n !in below && n !in Nodes(r) && Distinct(r) && below !! Nodes(r)
      && PathDistinct(up, all)
    case InRight(up, l, _, n) =>
      var all := Nodes(l) + {n} + below;
      && n !in below && n !in Nodes(l) && Distinct(l) && Nodes(l) !! below
      && PathDistinct(up, all)
  }

  // ----- colours -----

  ghost predicate IsRed(t: Tree) {
    t.Bin? && t.red
  }

  ghost predicate RedAbove(p: Path) {
    p.Top? || p.red
  }

  ghost function BlackHeight(t: Tree): nat {
    if t.Nil? then 0 else BlackHeight(t.left) + if t.red then 0 else 1
  }

  /** Equal black heights everywhere and no red node with a red child. */
  ghost predicate Balanced(t: Tree) {
    t.Bin? ==>
      var l, r := t.left, t.right;
      && Balanced(l) && Balanced(r) && BlackHeight(l) == BlackHeight(r)
      && (t.red ==> !IsRed(l) && !IsRed(r))
  }

  ghost predicate RedBlack(t: Tree) {
    Balanced(t) && !IsRed(t)
  }

  /** Filling the hole with a tree of black height `h` (of a colour that fits
      below the path) completes a red-black tree. */
  ghost predicate PathBalanced(p: Path, h: nat) {
    match p
    case Top => true
    case InLeft(up, red, _, r) =>
      var above := if red then h else h + 1;
      && Balanced(r) && BlackHeight(r) == h && (red ==> !IsRed(r) && !RedAbove(up))
      && PathBalanced(up, above)
    case InRight(up, l, red, _) =>
      var above := if red then h else h + 1;
      && Balanced(l) && BlackHeight(l) == h && (red ==> !IsRed(l) && !RedAbove(up))
      && PathBalanced(up, above)
  }

  // ----- a path and what is plugged into it -----

  lemma Rebracket<T>(a: seq<T>, b: seq<T>, c: seq<T>, d: seq<T>, e: seq<T>)
    ensures a + (b + c + d) + e == a + b + (c + d + e) == (a + b + c) + d + e
  {
  }

  lemma Around<T>(p: seq<T>, l: seq<T>, x: T, r: seq<T>, a: seq<T>)
    ensures p + (l + [x] + r) + a == (p + l) + [x] + (r + a)
    ensures (p + l) + (r + a) == p + l + r + a
  {
  }

  lemma Reassociate<T>(a: seq<T>, b: seq<T>, c: seq<T>, d: seq<T>, e: seq<T>, f: seq<T>)
    ensures a + b + c + (d + e + f) == a + (b + c + d + e + f)
  {
  }

  lemma {:induction false} PlugInOrder(p: Path, t: Tree)
    ensures InOrder(Plug(p, t)) == Before(p) + InOrder(t) + After(p)
    decreases p
  {
    match p
    case Top =>
      assert [] + InOrder(t) + [] == InOrder(t);
    case InLeft(up, red, n, r) =>
      PlugInOrder(up, Bin(t, red, n, r));
      Rebracket(Before(up), InOrder(t), [n], InOrder(r), After(up));
    case InRight(up, l, red, n) =>
      PlugInOrder(up, Bin(l, red, n, t));
      Rebracket(Before(up), InOrder(l), [n], InOrder(t), After(up));
  }

  lemma {:induction false} PlugNodes(p: Path, t: Tree)
    ensures Nodes(Plug(p, t)) == PathNodes(p) + Nodes(t)
    decreases p
  {
    match p
    case Top =>
    case InLeft(up, red, n, r) => PlugNodes(up, Bin(t, red, n, r));
    case InRight(up, l, red, n) => PlugNodes(up, Bin(l, red, n, t));
  }

  lemma {:induction false} PlugDistinct(p: Path, t: Tree)
    ensures Distinct(Plug(p, t)) <==> Distinct(t) && PathDistinct(p, Nodes(t))
    decreases p
  {
    match p
    case Top =>
    case InLeft(up, red, n, r) => PlugDistinct(up, Bin(t, red, n, r));
    case InRight(up, l, red, n) => PlugDistinct(up, Bin(l, red, n, t));
  }

  /** What a red-black tree asks of a subtree and of the path to it, exactly. */
  lemma {:induction false} PlugRedBlack(p: Path, t: Tree)
    ensures RedBlack(Plug(p, t))
       <==> Balanced(t) && PathBalanced(p, BlackHeight(t)) && (IsRed(t) ==> !RedAbove(p))
    decreases p
  {
    match p
    case Top =>
    case InLeft(up, red, n, r) => PlugRedBlack(up, Bin(t, red, n, r));
    case InRight(up, l, red, n) => PlugRedBlack(up, Bin(l, red, n, t));
  }

  lemma {:induction false} Locate(t: Tree, p: Path, n: Ptr) returns (q: Path, s: Tree)
    requires n in Nodes(t)
    ensures s.Bin? && s.node == n && Plug(q, s) == Plug(p, t)
    decreases t
  {
    if n == t.node {
      q, s := p, t;
    } else if n in Nodes(t.left) {
      q, s := Locate(t.left, InLeft(p, t.red, t.node, t.right), n);
    } else {
      q, s := Locate(t.right, InRight(p, t.left, t.red, t.node), n);
    }
  }

  /** `outer` continued from its hole by `inner`. */
  ghost function Append(inner: Path, outer: Path): Path {
    match inner
    case Top => outer
    case InLeft(up, red, n, r) => InLeft(Append(up, outer), red, n, r)
    case InRight(up, l, red, n) => InRight(Append(up, outer), l, red, n)
  }

  /** Two neighbouring nodes and the three subtrees around them: what a rotation
      does not change. */
  ghost function Pair(x: Tree, a: Ptr, y: Tree, b: Ptr, z: Tree): Tree {
    Bin(Bin(x, false, a, y), false, b, z)
  }

  ghost predicate PairApart(x: Tree, a: Ptr, y: Tree, b: Ptr, z: Tree) {
    var nx, ny, nz := Nodes(x), Nodes(y), Nodes(z);
    && Distinct(x) && Distinct(y) && Distinct(z) && a != b
    && a !in nx && a !in ny && a !in nz && b !in nx && b !in ny && b !in nz
    && nx !! ny && ny !! nz && nx !! nz
  }

  lemma PairRegroups(x: Tree, a: Ptr, y: Tree, b: Ptr, z: Tree, top: bool, low: bool)
    ensures var l, r := Bin(Bin(x, low, a, y), top, b, z), Bin(x, top, a, Bin(y, low, b, z));
            && Nodes(l) == Nodes(r) == Nodes(Pair(x, a, y, b, z)) == Nodes(x) + {a} + Nodes(y) + {b} + Nodes(z)
            && Distinct(l) == Distinct(r) == Distinct(Pair(x, a, y, b, z)) == PairApart(x, a, y, b, z)
  {
    assert Nodes(Bin(x, low, a, y)) == Nodes(Bin(x, false, a, y)) == Nodes(x) + {a} + Nodes(y);
    assert Nodes(Bin(y, low, b, z)) == Nodes(y) + {b} + Nodes(z);
  }

  /** The tree at the last step of a path, whose one side is `t`. */
  ghost function ParentTree(p: Path, t: Tree): Tree
    requires !p.Top?
  {
    if p.InLeft? then Bin(t, p.red, p.node, p.right) else Bin(p.left, p.red, p.node, t)
  }

  lemma Climb(p: Path, t: Tree)
    requires !p.Top?
    ensures Before(p.up) + InOrder(ParentTree(p, t)) + After(p.up) == Before(p) + InOrder(t) + After(p)
  {
    if p.InLeft? {
      Rebracket(Before(p.up), InOrder(t), [p.node], InOrder(p.right), After(p.up));
    } else {
      Rebracket(Before(p.up), InOrder(p.left), [p.node], InOrder(t), After(p.up));
    }
  }

  lemma ParentBalanced(p: Path, t: Tree)
    requires !p.Top? && PathBalanced(p, BlackHeight(t))
    ensures PathBalanced(p.up, BlackHeight(ParentTree(p, t)))
    ensures Balanced(t) && (!p.red || !IsRed(t)) ==> Balanced(ParentTree(p, t))
  {
  }

  lemma UpOutside(p: Path, below: set<Ptr>)
    requires PathDistinct(p, below)
    ensures Up(p, NULL) == NULL || Up(p, NULL) !in below
  {
  }

  ghost function Painted(t: Tree, red: bool): Tree {
    if t.Nil? then t else Bin(t.left, red, t.node, t.right)
  }

  /** What insertion leaves at the grandparent's place when the uncle is black:
      the middle of node, parent and grandparent on top, the other two red below. */
  ghost function InsertedRight(node: Ptr, t: Tree, gparent: Ptr, uncle: Tree): Tree
    requires t.Bin? && (node != Root(t.left) ==> t.right.Bin?)
  {
    if node == Root(t.left) then
      Bin(t.left, false, t.node, Bin(t.right, true, gparent, uncle))
    else
      Bin(Bin(t.left, true, t.node, t.right.left), false, t.right.node, Bin(t.right.right, true, gparent, uncle))
  }

  ghost function InsertedLeft(node: Ptr, t: Tree, gparent: Ptr, uncle: Tree): Tree
    requires t.Bin? && (node != Root(t.right) ==> t.left.Bin?)
  {
    if node == Root(t.right) then
      Bin(Bin(uncle, true, gparent, t.left), false, t.node, t.right)
    else
      Bin(Bin(uncle, true, gparent, t.left.left), false, t.left.node, Bin(t.left.right, true, t.node, t.right))
  }

  lemma InsertedRightInOrder(node: Ptr, t: Tree, gparent: Ptr, uncle: Tree)
    requires t.Bin? && (node != Root(t.left) ==> t.right.Bin?)
    ensures InOrder(InsertedRight(node, t, gparent, uncle)) == InOrder(Bin(t, false, gparent, uncle))
  {
    if node == Root(t.left) {
      assert InOrder(Bin(t.right, true, gparent, uncle)) == InOrder(t.right) + [gparent] + InOrder(uncle);
    } else {
      var r := t.right;
      assert InOrder(Bin(t.left, true, t.node, r.left)) == InOrder(t.left) + [t.node] + InOrder(r.left);
      assert InOrder(Bin(r.right, true, gparent, uncle)) == InOrder(r.right) + [gparent] + InOrder(uncle);
      assert InOrder(r) == InOrder(r.left) + [r.node] + InOrder(r.right);
    }
  }

  lemma InsertedRightFits(node: Ptr, t: Tree, gparent: Ptr, uncle: Tree)
    requires t.Bin? && t.red && Balanced(t.left) && Balanced(t.right) && BlackHeight(t.left) == BlackHeight(t.right)
    requires if node == Root(t.left) then !IsRed(t.right) else t.right.Bin? && t.right.red && !IsRed(t.left)
    requires Balanced(uncle) && !IsRed(uncle) && BlackHeight(uncle) == BlackHeight(t)
    ensures var s := InsertedRight(node, t, gparent, uncle);
            && Balanced(s) && !IsRed(s) && BlackHeight(s) == BlackHeight(uncle) + 1
            && InOrder(s) == InOrder(Bin(t, false, gparent, uncle))
  {
    InsertedRightInOrder(node, t, gparent, uncle);
    hide InOrder;
  }

  lemma InsertedLeftInOrder(node: Ptr, t: Tree, gparent: Ptr, uncle: Tree)
    requires t.Bin? && (node != Root(t.right) ==> t.left.Bin?)
    ensures InOrder(InsertedLeft(node, t, gparent, uncle)) == InOrder(Bin(uncle, false, gparent, t))
  {
    if node == Root(t.right) {
      assert InOrder(Bin(uncle, true, gparent, t.left)) == InOrder(uncle) + [gparent] + InOrder(t.left);
    } else {
      var l := t.left;
      assert InOrder(Bin(uncle, true, gparent, l.left)) == InOrder(uncle) + [gparent] + InOrder(l.left);
      assert InOrder(Bin(l.right, true, t.node, t.right)) == InOrder(l.right) + [t.node] + InOrder(t.right);
      assert InOrder(l) == InOrder(l.left) + [l.node] + InOrder(l.right);
    }
  }

  lemma InsertedLeftFits(node: Ptr, t: Tree, gparent: Ptr, uncle: Tree)
    requires t.Bin? && t.red && Balanced(t.left) && Balanced(t.right) && BlackHeight(t.left) == BlackHeight(t.right)
    requires if node == Root(t.right) then !IsRed(t.left) else t.left.Bin? && t.left.red && !IsRed(t.right)
    requires Balanced(uncle) && !IsRed(uncle) && BlackHeight(uncle) == BlackHeight(t)
    ensures var s := InsertedLeft(node, t, gparent, uncle);
            && Balanced(s) && !IsRed(s) && BlackHeight(s) == BlackHeight(uncle) + 1
            && InOrder(s) == InOrder(Bin(uncle, false, gparent, t))
  {
    InsertedLeftInOrder(node, t, gparent, uncle);
    hide InOrder;
  }

  lemma LeafFits(n: Ptr)
    ensures Balanced(Bin(Nil, true, n, Nil)) && BlackHeight(Bin(Nil, true, n, Nil)) == 0
    ensures InOrder(Bin(Nil, true, n, Nil)) == [n]
  {
    assert Balanced(Nil) && InOrder(Nil) == [];
  }

  lemma FlippedFits(a: Tree, g: Ptr, b: Tree)
    requires IsRed(a) && IsRed(b) && BlackHeight(a) == BlackHeight(b)
    requires Balanced(a.left) && Balanced(a.right) && BlackHeight(a.left) == BlackHeight(a.right)
    requires Balanced(b.left) && Balanced(b.right) && BlackHeight(b.left) == BlackHeight(b.right)
    ensures var s := Bin(Painted(a, false), true, g, Painted(b, false));
            Balanced(s) && BlackHeight(s) == BlackHeight(a) + 1 && InOrder(s) == InOrder(Bin(a, false, g, b))
  {
  }

  // ----- erasing -----

  ghost function Sibling(p: Path): Tree
    requires !p.Top?
  {
    if p.InLeft? then p.right else p.left
  }

  /** The same place seen from the sibling. */
  ghost function Across(p: Path, t: Tree): Path
    requires !p.Top?
  {
    if p.InLeft? then InRight(p.up, t, p.red, p.node) else InLeft(p.up, p.red, p.node, t)
  }

  /** What erasing leaves at the parent's place when the sibling `s` of the
      short side `t` is black and has a red child. */
  ghost function ErasedLeft(t: Tree, red: bool, parent: Ptr, s: Tree): Tree
    requires s.Bin? && (IsRed(s.right) || s.left.Bin?)
  {
    if IsRed(s.right) then
      Bin(Bin(t, false, parent, s.left), red, s.node, Painted(s.right, false))
    else
      Bin(Bin(t, false, parent, s.left.left), red, s.left.node, Bin(s.left.right, false, s.node, s.right))
  }

  ghost function ErasedRight(s: Tree, red: bool, parent: Ptr, t: Tree): Tree
    requires s.Bin? && (IsRed(s.left) || s.right.Bin?)
  {
    if IsRed(s.left) then
      Bin(Painted(s.left, false), red, s.node, Bin(s.right, false, parent, t))
    else
      Bin(Bin(s.left, false, s.node, s.right.left), red, s.right.node, Bin(s.right.right, false, parent, t))
  }

  /** The parent's subtree once the sibling has turned red. */
  ghost function Reddened(p: Path, t: Tree): Tree
    requires !p.Top?
  {
    if p.InLeft? then Bin(t, p.red, p.node, Painted(p.right, true)) else Bin(Painted(p.left, true), p.red, p.node, t)
  }

  lemma ReddenedFits(p: Path, t: Tree)
    requires !p.Top? && Sibling(p).Bin? && !Sibling(p).red && Balanced(t) && !IsRed(t)
    requires var s := Sibling(p);
      Balanced(s) && BlackHeight(s) == BlackHeight(t) + 1 && !IsRed(s.left) && !IsRed(s.right)
    ensures var e := Painted(Reddened(p, t), false);
      Balanced(e) && !IsRed(e) && BlackHeight(e) == BlackHeight(t) + 1 && InOrder(e) == InOrder(ParentTree(p, t))
    ensures !p.red ==> Reddened(p, t) == Painted(Reddened(p, t), false)
  {
    assert InOrder(Painted(Sibling(p), true)) == InOrder(Sibling(p));
  }

  /** Case 1 of erasing on the left: the red sibling rises over the parent. */
  ghost function SiblingAbove(p: Path): Path
    requires !p.Top? && Sibling(p).Bin?
  {
    var s := Sibling(p);
    if p.InLeft? then InLeft(InLeft(p.up, p.red, s.node, s.right), true, p.node, s.left)
    else InRight(InRight(p.up, s.left, p.red, s.node), s.right, true, p.node)
  }

  lemma SiblingAboveFits(p: Path, t: Tree)
    requires !p.Top? && PathBalanced(p, BlackHeight(t) + 1) && IsRed(Sibling(p))
    ensures PathBalanced(SiblingAbove(p), BlackHeight(t) + 1)
    ensures Before(SiblingAbove(p)) + InOrder(t) + After(SiblingAbove(p)) == Before(p) + InOrder(t) + After(p)
  {
    var s := Sibling(p);
    if p.InLeft? {
      Rebracket([p.node], InOrder(s.left), [s.node], InOrder(s.right), After(p.up));
    } else {
      Rebracket(Before(p.up), InOrder(s.left), [s.node], InOrder(s.right), [p.node]);
    }
  }

  lemma ErasedLeftInOrder(t: Tree, red: bool, parent: Ptr, s: Tree)
    requires s.Bin? && (IsRed(s.right) || s.left.Bin?)
    ensures InOrder(ErasedLeft(t, red, parent, s)) == InOrder(Bin(t, red, parent, s))
  {
    if IsRed(s.right) {
      Rebracket(InOrder(t), [parent], InOrder(s.left), [s.node], InOrder(s.right));
    } else {
      var a, b := s.left.left, s.left.right;
      Reassociate(InOrder(t) + [parent], InOrder(a), [s.left.node], InOrder(b), [s.node], InOrder(s.right));
    }
  }

  lemma ErasedLeftFits(t: Tree, red: bool, parent: Ptr, s: Tree)
    requires Balanced(t) && Balanced(s) && s.Bin? && !s.red && BlackHeight(s) == BlackHeight(t) + 1
    requires IsRed(s.right) || IsRed(s.left)
    ensures var e := ErasedLeft(t, red, parent, s);
            && Balanced(e) && IsRed(e) == red && BlackHeight(e) == BlackHeight(s) + (if red then 0 else 1)
            && InOrder(e) == InOrder(Bin(t, red, parent, s))
  {
    ErasedLeftInOrder(t, red, parent, s);
    hide InOrder;
  }

  lemma ErasedRightInOrder(s: Tree, red: bool, parent: Ptr, t: Tree)
    requires s.Bin? && (IsRed(s.left) || s.right.Bin?)
    ensures InOrder(ErasedRight(s, red, parent, t)) == InOrder(Bin(s, red, parent, t))
  {
    if IsRed(s.left) {
      Rebracket(InOrder(s.left), [s.node], InOrder(s.right), [parent], InOrder(t));
    } else {
      var a, b := s.right.left, s.right.right;
      Rebracket(InOrder(s.left) + [s.node], InOrder(a), [s.right.node], InOrder(b), [parent] + InOrder(t));
    }
  }

  lemma ErasedRightFits(s: Tree, red: bool, parent: Ptr, t: Tree)
    requires Balanced(t) && Balanced(s) && s.Bin? && !s.red && BlackHeight(s) == BlackHeight(t) + 1
    requires IsRed(s.right) || IsRed(s.left)
    ensures var e := ErasedRight(s, red, parent, t);
            && Balanced(e) && IsRed(e) == red && BlackHeight(e) == BlackHeight(s) + (if red then 0 else 1)
            && InOrder(e) == InOrder(Bin(s, red, parent, t))
  {
    ErasedRightInOrder(s, red, parent, t);
    hide InOrder;
  }

  lemma PairPainted(x: Tree, a: Ptr, y: Tree, b: Ptr, z: Tree)
    requires PairApart(x, a, y, b, z)
    ensures z.Bin? ==> z.node in Nodes(z)
    ensures Distinct(Pair(x, a, y, b, Painted(z, false))) && Distinct(Pair(Painted(x, false), a, y, b, z))
    ensures Nodes(Pair(x, a, y, b, z)) == Nodes(Pair(x, a, y, b, Painted(z, false))) == Nodes(Pair(Painted(x, false), a, y, b, z))
  {
    assert Nodes(Painted(x, false)) == Nodes(x) && Nodes(Painted(z, false)) == Nodes(z);
    PairRegroups(x, a, y, b, z, false, false);
    PairRegroups(x, a, y, b, Painted(z, false), false, false);
    PairRegroups(Painted(x, false), a, y, b, z, false, false);
  }

  lemma EraseRegroups(t: Tree, parent: Ptr, s: Tree)
    requires Distinct(Bin(t, false, parent, s)) && s.Bin?
    ensures PairApart(t, parent, s.left, s.node, s.right)
    ensures Nodes(Pair(t, parent, s.left, s.node, s.right)) == Nodes(t) + {parent} + Nodes(s)
    ensures s.left.Bin? ==> var z := Bin(s.left.right, false, s.node, s.right);
      PairApart(t, parent, s.left.left, s.left.node, z)
      && Nodes(Pair(t, parent, s.left.left, s.left.node, z)) == Nodes(t) + {parent} + Nodes(s)
  {
    PairRegroups(t, parent, s.left, s.node, s.right, false, s.red);
    if s.left.Bin? {
      var l := s.left;
      PairRegroups(l.left, l.node, l.right, s.node, s.right, s.red, l.red);
      PairRegroups(l.left, l.node, l.right, s.node, s.right, l.red, false);
      var z := Bin(l.right, false, s.node, s.right);
      PairRegroups(t, parent, l.left, l.node, z, false, l.red);
    }
  }

  lemma EraseRegroupsRight(s: Tree, parent: Ptr, t: Tree)
    requires Distinct(Bin(s, false, parent, t)) && s.Bin?
    ensures PairApart(s.left, s.node, s.right, parent, t)
    ensures Nodes(Pair(s.left, s.node, s.right, parent, t)) == Nodes(s) + {parent} + Nodes(t)
    ensures s.right.Bin? ==> var x := Bin(s.left, false, s.node, s.right.left);
      PairApart(x, s.right.node, s.right.right, parent, t)
      && Nodes(Pair(x, s.right.node, s.right.right, parent, t)) == Nodes(s) + {parent} + Nodes(t)
  {
    PairRegroups(s.left, s.node, s.right, parent, t, false, s.red);
    if s.right.Bin? {
      var r := s.right;
      PairRegroups(s.left, s.node, r.left, r.node, r.right, s.red, r.red);
      PairRegroups(s.left, s.node, r.left, r.node, r.right, r.red, false);
      var x := Bin(s.left, false, s.node, r.left);
      PairRegroups(x, r.node, r.right, parent, t, false, r.red);
    }
  }

  // ----- membership in sequences -----

  lemma {:induction false} InOrderMember(t: Tree, n: Ptr)
    ensures n in InOrder(t) <==> n in Nodes(t)
  {
    if t.Bin? {
      InOrderMember(t.left, n);
      InOrderMember(t.right, n);
    }
  }

  lemma {:induction false} InOrderDistinct(t: Tree)
    requires Distinct(t)
    ensures NoRepeats(InOrder(t))
  {
    if t.Bin? {
      InOrderDistinct(t.left);
      InOrderDistinct(t.right);
      InOrderMember(t.left, t.node);
      InOrderMember(t.right, t.node);
      forall y | y in InOrder(t.left) ensures y !in InOrder(t.right) {
        InOrderMember(t.left, y);
        InOrderMember(t.right, y);
      }
      NoRepeatsJoin(InOrder(t.left), t.node, InOrder(t.right));
    }
  }

  lemma {:induction false} DistinctFromInOrder(t: Tree)
    requires NoRepeats(InOrder(t))
    ensures Distinct(t)
  {
    if t.Bin? {
      NoRepeatsSplit(InOrder(t.left), t.node, InOrder(t.right));
      DistinctFromInOrder(t.left);
      DistinctFromInOrder(t.right);
      InOrderMember(t.left, t.node);
      InOrderMember(t.right, t.node);
      forall y | y in Nodes(t.left) ensures y !in Nodes(t.right) {
        InOrderMember(t.left, y);
        InOrderMember(t.right, y);
      }
    }
  }

  /** `s` without the first occurrence of `x`. */
  ghost function Without<T>(s: seq<T>, x: T): seq<T> {
    if s == [] then [] else if s[0] == x then s[1..] else [s[0]] + Without(s[1..], x)
  }

  lemma {:induction false} WithoutMiddle<T>(a: seq<T>, x: T, b: seq<T>)
    requires x !in a
    ensures Without(a + [x] + b, x) == a + b
  {
    var s := a + [x] + b;
    if a == [] {
      assert s[1..] == a + b;
    } else {
      WithoutMiddle(a[1..], x, b);
      assert s[1..] == a[1..] + [x] + b;
    }
  }

  // ----- the path to a node's successor -----

  ghost predicate AllLeft(p: Path) {
    p.Top? || (p.InLeft? && AllLeft(p.up))
  }

  /** The first node of a path. */
  ghost function First(p: Path): Ptr
    requires !p.Top?
  {
    if p.up.Top? then p.node else First(p.up)
  }

  lemma FirstInside(p: Path)
    requires !p.Top?
    ensures First(p) in PathNodes(p) && (p.up.Top? || First(p) in PathNodes(p.up))
  {
  }

  lemma {:induction false} AppendNodes(r: Path, o: Path)
    ensures PathNodes(Append(r, o)) == PathNodes(r) + PathNodes(o)
  {
    if !r.Top? {
      AppendNodes(r.up, o);
    }
  }

  lemma {:induction false} AppendInOrder(r: Path, o: Path)
    requires AllLeft(r)
    ensures Before(Append(r, o)) == Before(o)
    ensures After(Append(r, o)) == After(r) + After(o)
  {
    if !r.Top? {
      AppendInOrder(r.up, o);
      assert [r.node] + InOrder(r.right) + (After(r.up) + After(o)) == [r.node] + InOrder(r.right) + After(r.up) + After(o);
    }
  }

  lemma {:induction false} AppendDistinct(r: Path, o: Path, below: set<Ptr>)
    requires PathDistinct(Append(r, o), below)
    ensures PathDistinct(r, below) && PathDistinct(o, below + PathNodes(r))
    decreases r
  {
    match r
    case Top =>
      assert below + {} == below;
    case InLeft(up, _, n, t) =>
      AppendDistinct(up, o, below + {n} + Nodes(t));
      assert below + {n} + Nodes(t) + PathNodes(up) == below + PathNodes(r);
    case InRight(up, t, _, n) =>
      AppendDistinct(up, o, Nodes(t) + {n} + below);
      assert Nodes(t) + {n} + below + PathNodes(up) == below + PathNodes(r);
  }

  /** Balance does not depend on which node stands where. */
  lemma {:induction false} Relabelled(r: Path, p: Path, l: Tree, red: bool, a: Ptr, b: Ptr, h: nat)
    ensures PathBalanced(Append(r, InRight(p, l, red, a)), h) == PathBalanced(Append(r, InRight(p, l, red, b)), h)
    ensures RedAbove(Append(r, InRight(p, l, red, a))) == RedAbove(Append(r, InRight(p, l, red, b)))
    decreases r
  {
    if !r.Top? {
      Relabelled(r.up, p, l, red, a, b, if r.red then h else h + 1);
    }
  }

  /** A node with one side empty, in a balanced tree: the other side is empty or a
      single red node, and black in its place it makes up for the node. */
  lemma OnlyChildFits(t: Tree, c: Tree)
    requires t.Bin? && Balanced(t)
    requires (t.left.Nil? && c == t.right) || (t.right.Nil? && c == t.left)
    ensures c.Bin? ==> IsRed(c) && !t.red && c.left.Nil? && c.right.Nil?
    ensures Balanced(Painted(c, false)) && InOrder(Painted(c, false)) == InOrder(c)
    ensures BlackHeight(Painted(c, false)) == (if c.Nil? then 0 else BlackHeight(t))
    ensures BlackHeight(t) == (if t.red then 0 else 1)
    ensures InOrder(t) == if t.left.Nil? then [t.node] + InOrder(c) else InOrder(c) + [t.node]
  {
    if c.Bin? {
      assert BlackHeight(c.left) >= 0 && BlackHeight(c) == 0;
    }
  }

  lemma CancelPrefix<T>(a: seq<T>, u: seq<T>, v: seq<T>)
    requires a + u == a + v
    ensures u == v
  {
    assert u == (a + u)[|a|..] && v == (a + v)[|a|..];
  }

  /** In order, the successor's place is right after the node's. */
  lemma SuccessorInOrder(p: Path, r: Path, t: Tree, st: Tree, c: Tree)
    requires t.Bin? && AllLeft(r) && st.Bin? && st.left.Nil? && InOrder(c) == InOrder(st.right)
    requires InOrder(Plug(Append(r, InRight(p, t.left, t.red, t.node)), st)) == InOrder(Plug(p, t))
    ensures var q, q' := Append(r, InRight(p, t.left, t.red, t.node)), Append(r, InRight(p, t.left, t.red, st.node));
      var a, u := Before(p) + InOrder(t.left), InOrder(t.right) + After(p);
      && Before(q) + InOrder(st) + After(q) == a + [t.node] + u
      && Before(q') + InOrder(c) + After(q') == a + u
      && a + u == Before(p) + InOrder(t.left) + InOrder(t.right) + After(p)
  {
    var o, o' := InRight(p, t.left, t.red, t.node), InRight(p, t.left, t.red, st.node);
    var q, q' := Append(r, o), Append(r, o');
    PlugInOrder(q, st);
    PlugInOrder(p, t);
    AppendInOrder(r, o);
    AppendInOrder(r, o');
    OnlyRight(st);
    BeforeRight(p, t.left, t.red, t.node);
    BeforeRight(p, t.left, t.red, st.node);
    SuccessorShift(Before(p), InOrder(t.left), t.node, InOrder(t.right), After(p), st.node, InOrder(c), After(r));
  }

  lemma SuccessorShift<T>(p: seq<T>, l: seq<T>, x: T, r: seq<T>, a: seq<T>, s: T, c: seq<T>, d: seq<T>)
    requires p + (l + [x] + r) + a == p + l + [x] + ([s] + c) + (d + a)
    ensures p + l + [x] + ([s] + c) + (d + a) == p + l + [x] + (r + a)
    ensures p + l + [s] + c + (d + a) == p + l + (r + a) == p + l + r + a
  {
    assert p + (l + [x] + r) + a == p + l + [x] + (r + a);
    assert p + l + [x] + ([s] + c) + (d + a) == p + l + [x] + ([s] + c + (d + a));
    CancelPrefix(p + l + [x], r + a, [s] + c + (d + a));
    assert p + l + [s] + c + (d + a) == p + l + ([s] + c + (d + a));
  }

  lemma BeforeRight(p: Path, l: Tree, red: bool, n: Ptr)
    ensures Before(InRight(p, l, red, n)) == Before(p) + InOrder(l) + [n] && After(InRight(p, l, red, n)) == After(p)
  {
  }

  lemma OnlyRight(t: Tree)
    requires t.Bin? && t.left.Nil?
    ensures InOrder(t) == [t.node] + InOrder(t.right)
  {
  }

  // ----- height -----

  ghost function Max(a: nat, b: nat): nat {
    if a < b then b else a
  }

  ghost function Height(t: Tree): nat {
    if t.Nil? then 0 else 1 + Max(Height(t.left), Height(t.right))
  }

  lemma {:induction false} SizeFromBlackHeight(t: Tree)
    requires Balanced(t)
    ensures |InOrder(t)| + 1 >= Words.Power2(BlackHeight(t))
  {
    if t.Bin? {
      SizeFromBlackHeight(t.left);
      SizeFromBlackHeight(t.right);
    }
  }

  lemma {:induction false} HeightFromBlackHeight(t: Tree)
    requires Balanced(t)
    ensures Height(t) <= 2 * BlackHeight(t) + if IsRed(t) then 1 else 0
  {
    if t.Bin? {
      HeightFromBlackHeight(t.left);
      HeightFromBlackHeight(t.right);
    }
  }

  /** The logarithm to the base 2, rounded down. */
  ghost function Log2(n: nat): nat {
    if n <= 1 then 0 else 1 + Log2(n / 2)
  }

  lemma {:induction false} Log2OfPower(b: nat, n: nat)
    requires Words.Power2(b) <= n
    ensures b <= Log2(n)
    decreases b
  {
    if b > 0 {
      Log2OfPower(b - 1, n / 2);
    }
  }

  /** A red-black tree of n nodes is at most 2*log2(n+1) high. */
  lemma HeightIsLogarithmic(t: Tree)
    requires RedBlack(t)
    ensures Height(t) <= 2 * Log2(|InOrder(t)| + 1)
  {
    SizeFromBlackHeight(t);
    HeightFromBlackHeight(t);
    Log2OfPower(BlackHeight(t), |InOrder(t)| + 1);
  }

  lemma EmptyInOrder(t: Tree)
    ensures t.Nil? ==> InOrder(t) == []
  {
  }
}
