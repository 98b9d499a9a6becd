/** Red-black trees in memory: what cells hold a tree or a path, and what stays so
    while single cells are rewritten. */
module RedBlackMemory {
  import opened Collections
  import opened RedBlackShape

  /** What a container embeds to be a member of a tree. */
  datatype Cell = Cell(parent: Ptr, red: bool, left: Ptr, right: Ptr)

  type Memory = map<Ptr, Cell>

  /** The memory holds `t` below `parent`. */
  ghost predicate Linked(m: Memory, t: Tree, parent: Ptr)
    ensures Linked(m, t, parent) ==> Nodes(t) <= m.Keys && NULL !in Nodes(t)
  {
    t.Bin? ==>
      var n, cell := t.node, Cell(parent, t.red, Root(t.left), Root(t.right));
      n != NULL && n in m && m[n] == cell && Linked(m, t.left, n) && Linked(m, t.right, n)
  }

  /** The memory holds `p`, from `root` (whose parent is `above`) down to `hole`. */
  ghost predicate PathLinked(m: Memory, p: Path, hole: Ptr, root: Ptr, above: Ptr)
    ensures PathLinked(m, p, hole, root, above) ==> PathNodes(p) <= m.Keys && NULL !in PathNodes(p)
  {
    match p
    case Top => hole == root
    case InLeft(up, red, n, r) =>
      var cell := Cell(Up(up, above), red, hole, Root(r));
      n != NULL && n in m && m[n] == cell && Linked(m, r, n) && PathLinked(m, up, n, root, above)
    case InRight(up, l, red, n) =>
      var cell := Cell(Up(up, above), red, Root(l), hole);
      n != NULL && n in m && m[n] == cell && Linked(m, l, n) && PathLinked(m, up, n, root, above)
  }

  lemma {:induction false} PlugLinked(m: Memory, p: Path, t: Tree, root: Ptr)
    ensures root == Root(Plug(p, t)) && Linked(m, Plug(p, t), NULL)
       <==> PathLinked(m, p, Root(t), root, NULL) && Linked(m, t, Up(p, NULL))
    decreases p
  {
    match p
    case Top =>
    case InLeft(up, red, n, r) => PlugLinked(m, up, Bin(t, red, n, r), root);
    case InRight(up, l, red, n) => PlugLinked(m, up, Bin(l, red, n, t), root);
  }

  /** A subtree not touched but for its root's parent link and perhaps its colour. */
  lemma {:induction false} Carried(m: Memory, m': Memory, t: Tree, from: Ptr, to: Ptr)
    requires Linked(m, t, from) && Distinct(t)
    requires t.Bin? ==> t.node in m' && m'[t.node] == m[t.node].(parent := to)
    requires forall n | n in Nodes(t) && n != Root(t) :: n in m' && m'[n] == m[n]
    ensures Linked(m', t, to)
  {
    if t.Bin? {
      Carried(m, m', t.left, t.node, t.node);
      Carried(m, m', t.right, t.node, t.node);
    }
  }

  /** The two memories have the same cells, and differ at most on `except`. */
  ghost predicate Same(m: Memory, m': Memory, except: set<Ptr>) {
    m'.Keys == m.Keys && forall n | n in m && n !in except :: m'[n] == m[n]
  }

  /** A path not touched but for the link to its hole. */
  lemma {:induction false} PathCarried(m: Memory, m': Memory, p: Path, hole: Ptr, hole': Ptr, root: Ptr, root': Ptr, above: Ptr, below: set<Ptr>)
    requires PathLinked(m, p, hole, root, above) && PathDistinct(p, below)
    requires forall n | n in PathNodes(p) && n != Up(p, above) :: n in m' && m'[n] == m[n]
    requires match p
      case Top => hole' == root'
      case InLeft(_, _, n, _) => root == root' && n in m' && m'[n] == m[n].(left := hole')
      case InRight(_, _, _, n) => root == root' && n in m' && m'[n] == m[n].(right := hole')
    ensures PathLinked(m', p, hole', root', above)
    decreases p
  {
    match p
    case Top =>
    case InLeft(up, _, n, r) =>
      Carried(m, m', r, n, n);
      PathCarried(m, m', up, n, n, root, root, above, below + {n} + Nodes(r));
    case InRight(up, l, _, n) =>
      Carried(m, m', l, n, n);
      PathCarried(m, m', up, n, n, root, root, above, Nodes(l) + {n} + below);
  }

  lemma PathKept(m: Memory, m': Memory, p: Path, hole: Ptr, root: Ptr, below: set<Ptr>, changed: set<Ptr>)
    requires PathLinked(m, p, hole, root, NULL) && PathDistinct(p, below)
    requires Same(m, m', changed) && changed <= below + {NULL}
    ensures PathLinked(m', p, hole, root, NULL)
  {
    PathCarried(m, m', p, hole, hole, root, root, NULL, below);
  }

  /** The links below `root` are those of `t` in the hole of `p`. */
  ghost predicate At(m: Memory, root: Ptr, p: Path, t: Tree) {
    var linked := PathLinked(m, p, Root(t), root, NULL) && Linked(m, t, Up(p, NULL));
    var distinct := PathDistinct(p, Nodes(t)) && Distinct(t);
    linked && distinct
  }

  lemma Focus(m: Memory, root: Ptr, p: Path, t: Tree)
    ensures At(m, root, Top, Plug(p, t)) <==> At(m, root, p, t)
    ensures Nodes(Plug(p, t)) == PathNodes(p) + Nodes(t)
  {
    PlugLinked(m, p, t, root);
    PlugDistinct(p, t);
    PlugNodes(p, t);
  }

  /** A subtree among changes that touch at most its root, to hand it a new parent. */
  lemma Moved(m: Memory, m': Memory, t: Tree, from: Ptr, to: Ptr, changed: set<Ptr>)
    requires Linked(m, t, from) && Distinct(t) && Same(m, m', changed)
    requires Nodes(t) - {Root(t)} !! changed
    requires t.Bin? && t.node in m ==> if t.node in changed then m'[t.node] == m[t.node].(parent := to) else to == from
    ensures Linked(m', t, to)
  {
    Carried(m, m', t, from, to);
  }

  lemma Grown(m: Memory, x: Tree, red: bool, n: Ptr, y: Tree, parent: Ptr)
    requires n != NULL && n in m && m[n] == Cell(parent, red, Root(x), Root(y))
    requires Linked(m, x, n) && Linked(m, y, n)
    ensures Linked(m, Bin(x, red, n, y), parent)
  {
  }

  /** The nodes a rotation touches are below the path, and different. */
  lemma PairMembers(m: Memory, x: Tree, a: Ptr, y: Tree, b: Ptr, z: Tree, up: Ptr)
    requires Distinct(Pair(x, a, y, b, z)) && Linked(m, y, up)
    ensures a != b && {a, b} <= Nodes(Pair(x, a, y, b, z))
    ensures if y.Nil? then Root(y) == NULL else
      Root(y) == y.node != NULL && y.node in m && y.node in Nodes(Pair(x, a, y, b, z)) && y.node != a && y.node != b && m[y.node].red == y.red
  {
    PairRegroups(x, a, y, b, z, false, false);
    RootInside(y);
  }

  lemma RotatedRight(m: Memory, m': Memory, root: Ptr, p: Path, x: Tree, a: Ptr, y: Tree, b: Ptr, z: Tree, top: bool, low: bool)
    requires PathDistinct(p, Nodes(Pair(x, a, y, b, z))) && Distinct(Pair(x, a, y, b, z))
    requires PathLinked(m', p, a, root, NULL) && a != NULL && b != NULL
    requires Linked(m, x, a) && Linked(m, y, a) && Linked(m, z, b)
    requires Same(m, m', {a, b, Root(y), Up(p, NULL)}) && (y.Bin? ==> m'[y.node] == m[y.node].(parent := b))
    requires a in m' && m'[a] == Cell(Up(p, NULL), top, Root(x), b)
    requires b in m' && m'[b] == Cell(a, low, Root(y), Root(z))
    ensures At(m', root, p, Bin(x, top, a, Bin(y, low, b, z)))
  {
    hide Nodes, Distinct, PathDistinct, PathLinked, Linked;
    PairRegroups(x, a, y, b, z, top, low);
    UpOutside(p, Nodes(Pair(x, a, y, b, z)));
    RootInside(x);
    RootInside(y);
    RootInside(z);
    var changed := {a, b, Root(y), Up(p, NULL)};
    Moved(m, m', x, a, a, changed);
    Moved(m, m', y, a, b, changed);
    Moved(m, m', z, b, b, changed);
    Grown(m', y, low, b, z, a);
    Grown(m', x, top, a, Bin(y, low, b, z), Up(p, NULL));
  }

  lemma RotatedLeft(m: Memory, m': Memory, root: Ptr, p: Path, x: Tree, a: Ptr, y: Tree, b: Ptr, z: Tree, top: bool, low: bool)
    requires PathDistinct(p, Nodes(Pair(x, a, y, b, z))) && Distinct(Pair(x, a, y, b, z))
    requires PathLinked(m', p, b, root, NULL) && a != NULL && b != NULL
    requires Linked(m, x, a) && Linked(m, y, b) && Linked(m, z, b)
    requires Same(m, m', {a, b, Root(y), Up(p, NULL)}) && (y.Bin? ==> m'[y.node] == m[y.node].(parent := a))
    requires a in m' && m'[a] == Cell(b, low, Root(x), Root(y))
    requires b in m' && m'[b] == Cell(Up(p, NULL), top, a, Root(z))
    ensures At(m', root, p, Bin(Bin(x, low, a, y), top, b, z))
  {
    hide Nodes, Distinct, PathDistinct, PathLinked, Linked;
    PairRegroups(x, a, y, b, z, top, low);
    UpOutside(p, Nodes(Pair(x, a, y, b, z)));
    RootInside(x);
    RootInside(y);
    RootInside(z);
    var changed := {a, b, Root(y), Up(p, NULL)};
    Moved(m, m', x, a, a, changed);
    Moved(m, m', y, b, a, changed);
    Moved(m, m', z, b, b, changed);
    Grown(m', x, low, a, y, b);
    Grown(m', Bin(x, low, a, y), top, b, z, Up(p, NULL));
  }

  /** The first of a pair of rotations, `b` rising over `a` without yet being
      linked to the node above. */
  lemma RaisedLeft(m: Memory, m': Memory, x: Tree, a: Ptr, y: Tree, b: Ptr, z: Tree, above: Ptr, red: bool, extra: set<Ptr>)
    requires PairApart(x, a, y, b, z) && a != NULL && b != NULL
    requires Linked(m, x, a) && Linked(m, y, b) && Linked(m, z, b)
    requires Same(m, m', {a, b, Root(y)} + extra) && extra !! Nodes(Pair(x, a, y, b, z)) && (y.Bin? ==> m'[y.node] == m[y.node].(parent := a))
    requires a in m' && m'[a] == Cell(above, red, Root(x), Root(y))
    ensures Linked(m', Bin(x, red, a, y), above) && Linked(m', z, b)
  {
    PairRegroups(x, a, y, b, z, false, false);
    hide Nodes, Distinct, Linked;
    RootInside(x);
    RootInside(y);
    RootInside(z);
    var changed := {a, b, Root(y)} + extra;
    Moved(m, m', x, a, a, changed);
    Moved(m, m', y, b, a, changed);
    Moved(m, m', z, b, b, changed);
    Grown(m', x, red, a, y, above);
  }

  lemma RaisedRight(m: Memory, m': Memory, x: Tree, a: Ptr, y: Tree, b: Ptr, z: Tree, above: Ptr, red: bool, extra: set<Ptr>)
    requires PairApart(x, a, y, b, z) && a != NULL && b != NULL
    requires Linked(m, x, a) && Linked(m, y, a) && Linked(m, z, b)
    requires Same(m, m', {a, b, Root(y)} + extra) && extra !! Nodes(Pair(x, a, y, b, z)) && (y.Bin? ==> m'[y.node] == m[y.node].(parent := b))
    requires b in m' && m'[b] == Cell(above, red, Root(y), Root(z))
    ensures Linked(m', x, a) && Linked(m', Bin(y, red, b, z), above)
  {
    PairRegroups(x, a, y, b, z, false, false);
    hide Nodes, Distinct, Linked;
    RootInside(x);
    RootInside(y);
    RootInside(z);
    var changed := {a, b, Root(y)} + extra;
    Moved(m, m', x, a, a, changed);
    Moved(m, m', y, a, b, changed);
    Moved(m, m', z, b, b, changed);
    Grown(m', y, red, b, z, above);
  }

  lemma Repainted(m: Memory, m': Memory, t: Tree, red: bool, parent: Ptr)
    requires Linked(m, t, parent) && Distinct(t)
    requires forall n | n in Nodes(t) && n != Root(t) :: n in m' && m'[n] == m[n]
    requires t.Bin? ==> t.node in m' && m'[t.node] == m[t.node].(red := red)
    ensures Linked(m', Painted(t, red), parent)
  {
    if t.Bin? {
      Carried(m, m', t.left, t.node, t.node);
      Carried(m, m', t.right, t.node, t.node);
    }
  }

  lemma Flipped(m: Memory, m': Memory, root: Ptr, p: Path, a: Tree, g: Ptr, b: Tree)
    requires At(m, root, p, Bin(a, false, g, b)) && a.Bin? && b.Bin?
    requires Same(m, m', {a.node, g, b.node})
    requires a.node in m && m'[a.node] == m[a.node].(red := false)
    requires b.node in m && m'[b.node] == m[b.node].(red := false)
    requires g in m && m'[g] == m[g].(red := true)
    ensures At(m', root, p, Bin(Painted(a, false), true, g, Painted(b, false)))
  {
    var below := Nodes(a) + {g} + Nodes(b);
    PathKept(m, m', p, g, root, below, {a.node, g, b.node});
    Repainted(m, m', a, false, g);
    Repainted(m, m', b, false, g);
    assert Nodes(Painted(a, false)) == Nodes(a) && Nodes(Painted(b, false)) == Nodes(b);
    assert Nodes(Bin(Painted(a, false), true, g, Painted(b, false))) == below;
  }

  lemma RootPainted(m: Memory, root: Ptr, t: Tree)
    requires At(m, root, Top, t) && t.Bin? && Balanced(t)
    ensures t.node in m
    ensures At(m[t.node := m[t.node].(parent := NULL, red := false)], root, Top, Painted(t, false))
    ensures RedBlack(Painted(t, false)) && InOrder(Painted(t, false)) == Before(Top) + InOrder(t) + After(Top)
  {
    Repainted(m, m[t.node := m[t.node].(parent := NULL, red := false)], t, false, NULL);
  }

  /** The whole tree, once what is at the end of `p` fits there. */
  lemma Whole(m: Memory, root: Ptr, p: Path, t: Tree)
    requires At(m, root, p, t)
    requires Balanced(t) && PathBalanced(p, BlackHeight(t)) && (IsRed(t) ==> !RedAbove(p))
    ensures At(m, root, Top, Plug(p, t)) && RedBlack(Plug(p, t))
    ensures InOrder(Plug(p, t)) == Before(p) + InOrder(t) + After(p)
  {
    Focus(m, root, p, t);
    PlugRedBlack(p, t);
    PlugInOrder(p, t);
  }

  /** What insertion reads at and above a red node. */
  lemma InsertView(m: Memory, root: Ptr, p: Path, t: Tree)
    requires At(m, root, p, t) && IsRed(t) && Balanced(t) && PathBalanced(p, BlackHeight(t))
    ensures t.node != NULL && t.node in m && m[t.node] == Cell(Up(p, NULL), true, Root(t.left), Root(t.right))
    ensures p.Top? <==> Up(p, NULL) == NULL
    ensures !p.Top? ==>
      && p.node in m && m[p.node].parent == Up(p.up, NULL) && m[p.node].red == p.red
      && (p.red ==> !IsRed(Sibling(p))) && t.node != Root(Sibling(p))
    ensures !p.Top? && p.red ==> GrandparentView(m, root, p.up, ParentTree(p, t))
  {
    if !p.Top? && p.red {
      ParentBalanced(p, t);
      UncleView(m, root, p.up, ParentTree(p, t));
    }
  }

  lemma UncleView(m: Memory, root: Ptr, q: Path, t: Tree)
    requires At(m, root, q, t) && t.Bin? && !q.Top? && !q.red && PathBalanced(q, BlackHeight(t))
    requires Balanced(t.left) && Balanced(t.right) && BlackHeight(t.left) == BlackHeight(t.right)
    ensures GrandparentView(m, root, q, t)
  {
    ParentBalanced(q, t);
    assert Linked(m, Sibling(q), q.node);
  }

  ghost predicate GrandparentView(m: Memory, root: Ptr, q: Path, t: Tree) {
    && t.Bin? && !q.Top? && !q.red && q.node in m && m[q.node].red == false
    && At(m, root, q.up, ParentTree(q, t))
    && Balanced(t.left) && Balanced(t.right) && BlackHeight(t.left) == BlackHeight(t.right)
    && var uncle := Sibling(q);
       && (q.InLeft? <==> t.node != m[q.node].right)
       && (if q.InLeft? then m[q.node].right else m[q.node].left) == Root(uncle)
       && (uncle.Bin? <==> Root(uncle) != NULL) && (uncle.Bin? ==> uncle.node in m && m[uncle.node].red == uncle.red)
       && Balanced(uncle) && BlackHeight(uncle) == BlackHeight(t) && PathBalanced(q.up, BlackHeight(t) + 1)
       && (IsRed(uncle) ==> Balanced(uncle.left) && Balanced(uncle.right) && BlackHeight(uncle.left) == BlackHeight(uncle.right))
  }

  lemma OpenAt(m: Memory, root: Ptr, p: Path, l: Tree, red: bool, n: Ptr, r: Tree)
    requires At(m, root, p, Bin(l, red, n, r))
    ensures PathLinked(m, p, n, root, NULL) && PathDistinct(p, Nodes(l) + {n} + Nodes(r)) && Distinct(Bin(l, red, n, r))
    ensures n != NULL && n in m && m[n] == Cell(Up(p, NULL), red, Root(l), Root(r))
    ensures Linked(m, l, n) && Linked(m, r, n) && NULL !in Nodes(l) + Nodes(r)
    ensures Up(p, NULL) == NULL || Up(p, NULL) !in Nodes(l) + {n} + Nodes(r)
  {
  }

  lemma OpenLinked(m: Memory, t: Tree, parent: Ptr)
    requires Linked(m, t, parent) && t.Bin?
    ensures t.node != NULL && t.node in m && m[t.node] == Cell(parent, t.red, Root(t.left), Root(t.right))
    ensures Linked(m, t.left, t.node) && Linked(m, t.right, t.node)
    ensures t.node in Nodes(t) && Nodes(t.left) <= Nodes(t) && Nodes(t.right) <= Nodes(t)
  {
  }

  /** One node recoloured. */
  lemma PaintedAt(m: Memory, root: Ptr, p: Path, t: Tree, red: bool)
    requires At(m, root, p, t) && t.Bin?
    ensures t.node in m && At(m[t.node := m[t.node].(red := red)], root, p, Painted(t, red))
  {
    var m' := m[t.node := m[t.node].(red := red)];
    Repainted(m, m', t, red, Up(p, NULL));
    PathKept(m, m', p, t.node, root, Nodes(t), {t.node});
    assert Nodes(Painted(t, red)) == Nodes(t);
  }

  lemma ChildPainted(m: Memory, m': Memory, t: Tree, from: Ptr, to: Ptr)
    requires Linked(m, t, from) && t.Bin? && Distinct(t)
    requires Same(m, m', {t.node}) && (t.node in m ==> m'[t.node] == m[t.node].(parent := to, red := false))
    ensures Linked(m', Painted(t, false), to)
  {
    var m1 := m[t.node := m[t.node].(red := false)];
    Repainted(m, m1, t, false, from);
    Carried(m1, m', Painted(t, false), from, to);
  }

  /** The far child of an erase rotation blackened and handed over, all else untouched. */
  lemma FarChildPainted(m: Memory, m': Memory, root: Ptr, p: Path, hole: Ptr, below: set<Ptr>,
                        a: Tree, aUp: Ptr, b: Tree, bUp: Ptr, c: Tree, from: Ptr, to: Ptr)
    requires PathLinked(m, p, hole, root, NULL) && PathDistinct(p, below)
    requires c.Bin? && c.node in below && c.node in m && m' == m[c.node := m[c.node].(parent := to, red := false)]
    requires Linked(m, a, aUp) && Distinct(a) && c.node !in Nodes(a)
    requires Linked(m, b, bUp) && Distinct(b) && c.node !in Nodes(b)
    requires Linked(m, c, from) && Distinct(c)
    ensures PathLinked(m', p, hole, root, NULL) && Linked(m', Painted(c, false), to)
    ensures Linked(m', a, aUp) && Linked(m', b, bUp)
  {
    hide PathLinked, PathDistinct, Linked, Distinct, Nodes;
    RootInside(a);
    RootInside(b);
    PathKept(m, m', p, hole, root, below, {c.node});
    Moved(m, m', a, aUp, aUp, {c.node});
    Moved(m, m', b, bUp, bUp, {c.node});
    ChildPainted(m, m', c, from, to);
  }

  lemma SeenAcross(m: Memory, root: Ptr, p: Path, t: Tree)
    requires !p.Top?
    ensures At(m, root, p, t) <==> At(m, root, Across(p, t), Sibling(p))
    ensures At(m, root, p, t) <==> At(m, root, p.up, ParentTree(p, t))
  {
  }

  /** What the erasing loop reads above the short subtree `t`. */
  lemma EraseCells(m: Memory, root: Ptr, p: Path, t: Tree)
    requires At(m, root, p, t) && !p.Top? && Sibling(p).Bin? && Balanced(Sibling(p))
    ensures p.node != NULL && p.node in m && m[p.node].parent == Up(p.up, NULL) && m[p.node].red == p.red
    ensures m[p.node].left == Root(if p.InLeft? then t else Sibling(p))
    ensures m[p.node].right == Root(if p.InLeft? then Sibling(p) else t)
    ensures Root(t) != Root(Sibling(p)) && SubtreeView(m, Sibling(p), p.node)
    ensures At(m, root, p.up, ParentTree(p, t))
    ensures p.up.Top? <==> Up(p.up, NULL) == NULL
  {
    var s := Sibling(p);
    assert Linked(m, s, p.node) && Linked(m, s.left, s.node) && Linked(m, s.right, s.node);
    RootInside(t);
  }

  lemma EraseView(m: Memory, root: Ptr, p: Path, t: Tree)
    requires At(m, root, p, t) && !p.Top? && PathBalanced(p, BlackHeight(t) + 1)
    ensures p.node != NULL && p.node in m && m[p.node].parent == Up(p.up, NULL) && m[p.node].red == p.red
    ensures Sibling(p).Bin? && Balanced(Sibling(p)) && BlackHeight(Sibling(p)) == BlackHeight(t) + 1
    ensures m[p.node].left == Root(if p.InLeft? then t else Sibling(p))
    ensures m[p.node].right == Root(if p.InLeft? then Sibling(p) else t)
    ensures Root(t) != Root(Sibling(p)) && SubtreeView(m, Sibling(p), p.node)
    ensures p.red ==> !IsRed(Sibling(p)) && !RedAbove(p.up)
    ensures PathBalanced(p.up, BlackHeight(t) + if p.red then 1 else 2)
    ensures At(m, root, p.up, ParentTree(p, t))
    ensures p.up.Top? <==> Up(p.up, NULL) == NULL
  {
    hide At, SubtreeView;
    assert Sibling(p).Bin?;
    EraseCells(m, root, p, t);
  }

  /** The cells of a subtree's root and of its children. */
  ghost predicate SubtreeView(m: Memory, s: Tree, parent: Ptr) {
    && s.Bin? && s.node != NULL && s.node in m && m[s.node] == Cell(parent, s.red, Root(s.left), Root(s.right))
    && Balanced(s.left) && Balanced(s.right) && BlackHeight(s.left) == BlackHeight(s.right)
    && ChildView(m, s.left, s.node) && ChildView(m, s.right, s.node)
  }

  ghost predicate ChildView(m: Memory, c: Tree, parent: Ptr) {
    && (c.Bin? <==> Root(c) != NULL)
    && (c.Bin? ==> c.node in m && m[c.node] == Cell(parent, c.red, Root(c.left), Root(c.right)))
  }

  lemma SiblingRaisedRight(m: Memory, m': Memory, root: Ptr, p: Path, t: Tree, red: bool, parent: Ptr, s: Tree)
    requires At(m, root, p, Bin(t, red, parent, s)) && s.Bin? && !s.red && s.left.Bin? && s.left.red
    requires Same(m, m', {parent, s.node, s.left.node, Root(s.left.right)})
    requires s.node in m && m'[s.node] == Cell(parent, false, Root(s.left.right), Root(s.right))
    requires s.left.node in m && m'[s.left.node] == Cell(s.node, true, Root(s.left.left), s.node)
    requires s.left.right.Bin? && s.left.right.node in m ==> m'[s.left.right.node] == m[s.left.right.node].(parent := s.node)
    ensures PathLinked(m', p, parent, root, NULL) && Linked(m', t, parent)
    ensures Linked(m', s.left.left, s.left.node) && Linked(m', Bin(s.left.right, false, s.node, s.right), parent)
  {
    var l := s.left;
    OpenAt(m, root, p, t, red, parent, s);
    OpenLinked(m, s, parent);
    OpenLinked(m, l, s.node);
    assert s == Bin(Bin(l.left, true, l.node, l.right), false, s.node, s.right);
    PairRegroups(l.left, l.node, l.right, s.node, s.right, false, true);
    RootInside(t);
    RootInside(l.right);
    var below := Nodes(t) + {parent} + Nodes(s);
    assert Distinct(t) && Nodes(t) !! Nodes(s) && parent !in Nodes(t) && parent !in Nodes(s);
    hide PathLinked, PathDistinct, Linked, Distinct, Nodes, At;
    RaisedRight(m, m', l.left, l.node, l.right, s.node, s.right, parent, false, {parent});
    Moved(m, m', t, parent, parent, {parent, s.node, l.node, Root(l.right)});
    PathKept(m, m', p, parent, root, below, {parent, s.node, l.node, Root(l.right)});
  }

  lemma SiblingRaisedLeft(m: Memory, m': Memory, root: Ptr, p: Path, t: Tree, red: bool, parent: Ptr, s: Tree)
    requires At(m, root, p, Bin(s, red, parent, t)) && s.Bin? && !s.red && s.right.Bin? && s.right.red
    requires Same(m, m', {parent, s.node, s.right.node, Root(s.right.left)})
    requires s.node in m && m'[s.node] == Cell(parent, false, Root(s.left), Root(s.right.left))
    requires s.right.node in m && m'[s.right.node] == Cell(s.node, true, s.node, Root(s.right.right))
    requires s.right.left.Bin? && s.right.left.node in m ==> m'[s.right.left.node] == m[s.right.left.node].(parent := s.node)
    ensures PathLinked(m', p, parent, root, NULL) && Linked(m', t, parent)
    ensures Linked(m', s.right.right, s.right.node) && Linked(m', Bin(s.left, false, s.node, s.right.left), parent)
  {
    var l := s.right;
    OpenAt(m, root, p, s, red, parent, t);
    OpenLinked(m, s, parent);
    OpenLinked(m, l, s.node);
    assert s == Bin(s.left, false, s.node, Bin(l.left, true, l.node, l.right));
    PairRegroups(s.left, s.node, l.left, l.node, l.right, false, true);
    RootInside(t);
    RootInside(l.left);
    var below := Nodes(s) + {parent} + Nodes(t);
    assert Distinct(t) && Nodes(t) !! Nodes(s) && parent !in Nodes(t) && parent !in Nodes(s);
    hide PathLinked, PathDistinct, Linked, Distinct, Nodes, At;
    RaisedLeft(m, m', s.left, s.node, l.left, l.node, l.right, parent, false, {parent});
    Moved(m, m', t, parent, parent, {parent, s.node, l.node, Root(l.left)});
    PathKept(m, m', p, parent, root, below, {parent, s.node, l.node, Root(l.left)});
  }

  /** The parent after its sibling subtree has turned red, about to be painted black. */
  lemma ParentPainted(m: Memory, root: Ptr, p: Path, t: Tree)
    requires !p.Top? && At(m, root, p.up, Reddened(p, t))
    ensures p.node in m && p.node != NULL && m[p.node].red == p.red && m[p.node].parent == Up(p.up, NULL)
    ensures At(m[p.node := m[p.node].(red := false)], root, p.up, Painted(Reddened(p, t), false))
  {
    OpenLinked(m, Reddened(p, t), Up(p.up, NULL));
    PaintedAt(m, root, p.up, Reddened(p, t), false);
  }

  lemma ParentSeen(m: Memory, root: Ptr, p: Path, t: Tree)
    requires At(m, root, p, t) && t.Bin? && !p.Top?
    ensures t.node in m && m[t.node].parent == p.node
  {
  }

  lemma EmptyFits(p: Path)
    ensures Balanced(Nil) && BlackHeight(Nil) == 0 && Before(p) + InOrder(Nil) + After(p) == Before(p) + After(p)
  {
  }

  // ----- taking a node out -----

  lemma {:induction false} AppendLinked(m: Memory, r: Path, o: Path, hole: Ptr, root: Ptr)
    ensures PathLinked(m, Append(r, o), hole, root, NULL)
       <==> var top := if r.Top? then hole else First(r);
            PathLinked(m, r, hole, top, Up(o, NULL)) && PathLinked(m, o, top, root, NULL)
    decreases r
  {
    match r
    case Top =>
    case InLeft(up, red, n, t) => AppendLinked(m, up, o, n, root);
    case InRight(up, t, red, n) => AppendLinked(m, up, o, n, root);
  }

  /** A path whose last link leads to a new hole and whose first node has a new parent. */
  lemma {:induction false} EndsCarried(m: Memory, m': Memory, r: Path, hole: Ptr, hole': Ptr, above: Ptr, above': Ptr, below: set<Ptr>)
    requires !r.Top? && AllLeft(r) && PathDistinct(r, below)
    requires PathLinked(m, r, hole, First(r), above)
    requires forall n | n in PathNodes(r) && n != r.node && n != First(r) :: n in m' && m'[n] == m[n]
    requires r.node in m' && m'[r.node] == m[r.node].(left := hole', parent := if r.up.Top? then above' else m[r.node].parent)
    requires First(r) in m' && First(r) in m && (!r.up.Top? ==> m'[First(r)] == m[First(r)].(parent := above'))
    ensures PathLinked(m', r, hole', First(r), above')
    decreases r
  {
    FirstInside(r);
    Carried(m, m', r.right, r.node, r.node);
    if !r.up.Top? {
      FirstInside(r.up);
      assert AllLeft(r.up) && PathLinked(m, r.up, r.node, First(r), above) && m[r.up.node].left == r.node;
      EndsCarried(m, m', r.up, r.node, r.node, above, above', below + {r.node} + Nodes(r.right));
    }
  }

  /** `st`, without a left subtree, is at the end of the left spine `r` below the
      right side of `node`. */
  ghost predicate Spine(m: Memory, root: Ptr, p: Path, r: Path, l: Tree, red: bool, node: Ptr, st: Tree) {
    var o := InRight(p, l, red, node);
    AllLeft(r) && l.Bin? && st.Bin? && st.left.Nil? && At(m, root, Append(r, o), st)
  }

  ghost function SpineTree(p: Path, r: Path, t: Tree, st: Tree): Tree
    requires t.Bin?
  {
    Plug(Append(r, InRight(p, t.left, t.red, t.node)), st)
  }

  /** The cells once the successor `st.node` has moved to the end of `p`. */
  ghost predicate SplicedCells(m: Memory, m': Memory, p: Path, r: Path, l: Tree, red: bool, st: Tree)
    requires l.Bin? && st.Bin?
  {
    var c := st.right;
      && Same(m, m', {st.node, l.node, Root(c), Up(p, NULL)} + (if r.Top? then {} else {r.node, First(r)}))
      && st.node in m && m'[st.node] == Cell(Up(p, NULL), red, l.node, if r.Top? then Root(c) else First(r))
      && l.node in m && m'[l.node] == m[l.node].(parent := st.node)
      && (c.Bin? && c.node in m ==> m'[c.node] == m[c.node].(parent := if r.Top? then st.node else r.node, red := false))
      && (!r.Top? && r.node in m ==>
           m'[r.node] == m[r.node].(left := Root(c), parent := if r.up.Top? then st.node else m[r.node].parent))
      && (!r.Top? && !r.up.Top? && First(r) in m ==> m'[First(r)] == m[First(r)].(parent := st.node))
  }

  /** The links once the successor `s` of `node` stands in its place, `c` in the
      successor's, and everything else is as it was. */
  lemma SuccessorSpliced(m: Memory, m': Memory, root: Ptr, root': Ptr, p: Path, r: Path, l: Tree, red: bool, node: Ptr, st: Tree)
    requires l.Bin? && st.Bin? && Spine(m, root, p, r, l, red, node, st)
    requires PathLinked(m', p, st.node, root', NULL)
    requires SplicedCells(m, m', p, r, l, red, st)
    ensures var q := Append(r, InRight(p, l, red, st.node));
      PathLinked(m', q, Root(st.right), root', NULL) && Linked(m', Painted(st.right, false), Up(q, NULL))
  {
    var s, c, o' := st.node, st.right, InRight(p, l, red, st.node);
    var ends: set<Ptr> := if r.Top? then {} else {r.node, First(r)};
    var changed: set<Ptr> := {s, l.node, Root(c), Up(p, NULL)} + ends;
    assert Up(Append(r, o'), NULL) == if r.Top? then s else r.node;
    assert r.Top? ==> PathLinked(m', r, Root(c), Root(c), s);
    SuccessorView(m, root, p, r, l, red, node, st);
    AppendLinked(m', r, o', Root(c), root');
    hide Nodes, PathNodes, Distinct, PathDistinct, PathLinked, Linked, Append, AllLeft, At;
    if !r.Top? {
      EndsCarried(m, m', r, s, Root(c), node, s, Nodes(st));
    }
    Moved(m, m', l, node, s, changed);
    ChildMoved(m, m', c, s, if r.Top? then s else r.node, changed);
    HoleLinked(m', p, l, red, s, if r.Top? then Root(c) else First(r), root');
  }

  lemma ChildMoved(m: Memory, m': Memory, c: Tree, from: Ptr, to: Ptr, changed: set<Ptr>)
    requires Linked(m, c, from) && Distinct(c) && Same(m, m', changed) && Nodes(c) - {Root(c)} !! changed
    requires c.Bin? && c.node in m ==> m'[c.node] == m[c.node].(parent := to, red := false)
    ensures Linked(m', Painted(c, false), to)
  {
    if c.Bin? {
      var m1 := m[c.node := m'[c.node]];
      ChildPainted(m, m1, c, from, to);
      assert Nodes(Painted(c, false)) == Nodes(c) && Distinct(Painted(c, false));
      Moved(m1, m', Painted(c, false), to, to, changed - {c.node});
    }
  }

  lemma HoleLinked(m: Memory, p: Path, l: Tree, red: bool, n: Ptr, hole: Ptr, root: Ptr)
    requires PathLinked(m, p, n, root, NULL) && Linked(m, l, n)
    requires n != NULL && n in m && m[n] == Cell(Up(p, NULL), red, Root(l), hole)
    ensures PathLinked(m, InRight(p, l, red, n), hole, root, NULL)
  {
  }

  lemma SuccessorView(m: Memory, root: Ptr, p: Path, r: Path, l: Tree, red: bool, node: Ptr, st: Tree)
    requires l.Bin? && st.Bin? && Spine(m, root, p, r, l, red, node, st)
    ensures PathLinked(m, r, st.node, if r.Top? then st.node else First(r), node) && PathDistinct(r, Nodes(st))
    ensures Linked(m, l, node) && Linked(m, st.right, st.node) && Distinct(l) && Distinct(st.right) && st.node != NULL
    ensures var ends, c := (if r.Top? then {} else {r.node, First(r)}), st.right;
      && ends <= PathNodes(r) && PathNodes(r) !! {st.node, l.node, Root(c), Up(p, NULL), node}
      && PathNodes(r) <= m.Keys && node !in Nodes(c)
      && Nodes(l) !! {st.node, Root(c), Up(p, NULL)} + ends && Nodes(c) !! {st.node, l.node, Up(p, NULL)} + ends
      && l.node in Nodes(l) && (c.Bin? ==> Root(c) in Nodes(c))
      && Nodes(l) <= m.Keys && Nodes(c) <= m.Keys && NULL !in Nodes(l) + Nodes(c)
  {
    var o := InRight(p, l, red, node);
    AppendLinked(m, r, o, st.node, root);
    AppendDistinct(r, o, Nodes(st));
    OpenLinked(m, st, Up(Append(r, o), NULL));
    UpOutside(p, Nodes(l) + {node} + (Nodes(st) + PathNodes(r)));
    RootInside(l);
    RootInside(st.right);
    if !r.Top? {
      FirstInside(r);
    }
  }

  /** Distinctness, and being in order, after one node was taken out. */
  lemma TakenOut(m: Memory, m': Memory, root: Ptr, root': Ptr, p: Path, t: Tree, q: Path, c: Tree, a: seq<Ptr>, x: Ptr, b: seq<Ptr>)
    requires At(m, root, p, t) && Before(p) + InOrder(t) + After(p) == a + [x] + b
    requires PathLinked(m', q, Root(c), root', NULL) && Linked(m', c, Up(q, NULL))
    requires Before(q) + InOrder(c) + After(q) == a + b
    ensures At(m', root', q, c)
  {
    Focus(m, root, p, t);
    PlugInOrder(p, t);
    InOrderDistinct(Plug(p, t));
    NoRepeatsSplit(a, x, b);
    PlugInOrder(q, c);
    DistinctFromInOrder(Plug(q, c));
    PlugDistinct(q, c);
  }

  lemma DescendLeft(m: Memory, root: Ptr, r: Path, o: Path, st: Tree)
    requires At(m, root, Append(r, o), st) && st.Bin? && AllLeft(r)
    ensures var r' := InLeft(r, st.red, st.node, st.right);
      && At(m, root, Append(r', o), st.left) && Plug(Append(r', o), st.left) == Plug(Append(r, o), st)
      && AllLeft(r') && First(r') == (if r.Top? then st.node else First(r))
  {
    var r' := InLeft(r, st.red, st.node, st.right);
    assert Append(r', o) == InLeft(Append(r, o), st.red, st.node, st.right);
    assert st == ParentTree(Append(r', o), st.left);
    SeenAcross(m, root, Append(r', o), st.left);
  }

  lemma OpenLinkedAt(m: Memory, root: Ptr, p: Path, t: Tree)
    requires At(m, root, p, t)
    ensures t.Bin? ==>
      && t.node != NULL && t.node in m && m[t.node] == Cell(Up(p, NULL), t.red, Root(t.left), Root(t.right))
      && (t.left.Nil? <==> Root(t.left) == NULL) && (t.right.Nil? <==> Root(t.right) == NULL)
  {
    if t.Bin? {
      assert Linked(m, t.left, t.node) && Linked(m, t.right, t.node);
    }
  }

  /** The cells that moving the successor `st.node` touches, and which of them may
      be the same. */
  lemma SuccessorApart(m: Memory, root: Ptr, p: Path, r: Path, l: Tree, red: bool, node: Ptr, st: Tree)
    requires l.Bin? && st.Bin? && Spine(m, root, p, r, l, red, node, st)
    ensures var s, c, up := st.node, Root(st.right), Up(p, NULL);
      && s in m && l.node in m && (c in m || c == NULL) && s != NULL && l.node != NULL && (st.right.Nil? <==> c == NULL)
      && s != c && s != l.node && s != node && s != up
      && c != l.node && c != node && (c != NULL ==> c != up) && l.node != node && l.node != up && node != up
      && (!r.Top? ==> var a, b := r.node, First(r);
           && a in m && b in m && a != s && b != s && a != c && b != c && a != l.node && b != l.node
           && a != node && b != node && a != up && b != up && (a == b <==> r.up.Top?))
    ensures m[st.node].right == Root(st.right) && m[st.node].red == st.red
    ensures node in m && m[node] == Cell(Up(p, NULL), red, l.node, if r.Top? then st.node else First(r))
    ensures PathLinked(m, p, node, root, NULL)
  {
    var o := InRight(p, l, red, node);
    SuccessorView(m, root, p, r, l, red, node, st);
    AppendLinked(m, r, o, st.node, root);
    AppendDistinct(r, o, Nodes(st));
    OpenLinked(m, st, Up(Append(r, o), NULL));
    UpOutside(p, Nodes(l) + {node} + (Nodes(st) + PathNodes(r)));
    if !r.Top? && !r.up.Top? {
      FirstInside(r);
    }
  }

  /** The cells that move the successor to its new place, but for the links to it
      from above. */
  ghost predicate Detached(m: Memory, m': Memory, r: Path, l: Tree, st: Tree)
    requires l.Bin? && st.Bin?
  {
    var ends := if r.Top? then {} else {r.node, First(r)};
    && Same(m, m', {st.node, l.node} + ends)
    && st.node in m && l.node in m
    && m'[st.node] == m[st.node].(left := l.node, right := if r.Top? then Root(st.right) else First(r))
    && m'[l.node] == m[l.node].(parent := st.node)
    && (!r.Top? ==>
         && r.node in m && First(r) in m
         && m'[r.node] == m[r.node].(left := Root(st.right), parent := if r.up.Top? then st.node else m[r.node].parent)
         && (!r.up.Top? ==> m'[First(r)] == m[First(r)].(parent := st.node)))
  }

  /** What unlinking `t.node` leaves: its tree without it, whole unless it was black
      and had no child to make up for it. */
  ghost predicate Unlinked(m: Memory, root: Ptr, p: Path, t: Tree, rebalance: Ptr, q: Path, c: Tree) {
    var whole := rebalance == NULL;
    && t.Bin? && At(m, root, q, c)
    && Before(q) + InOrder(c) + After(q) == Before(p) + InOrder(t.left) + InOrder(t.right) + After(p)
    && (if whole then
          Balanced(c) && PathBalanced(q, BlackHeight(c)) && (IsRed(c) ==> !RedAbove(q))
        else
          c == Nil && !q.Top? && q.node == rebalance && PathBalanced(q, 1))
  }

  lemma SuccessorUnlinked(m: Memory, m': Memory, root: Ptr, root': Ptr, p: Path, r: Path, t: Tree, st: Tree, rebalance: Ptr)
    requires t.Bin? && t.left.Bin? && st.Bin? && Spine(m, root, p, r, t.left, t.red, t.node, st)
    requires SpineTree(p, r, t, st) == Plug(p, t) && RedBlack(Plug(p, t))
    requires var q := Append(r, InRight(p, t.left, t.red, st.node));
      && PathLinked(m', q, Root(st.right), root', NULL) && Linked(m', Painted(st.right, false), Up(q, NULL))
      && rebalance == if st.right.Nil? && !st.red then Up(q, NULL) else NULL
    ensures Unlinked(m', root', p, t, rebalance, Append(r, InRight(p, t.left, t.red, st.node)), Painted(st.right, false))
  {
    var o, o' := InRight(p, t.left, t.red, t.node), InRight(p, t.left, t.red, st.node);
    var q, q', c := Append(r, o), Append(r, o'), Painted(st.right, false);
    PlugRedBlack(q, st);
    OnlyChildFits(st, st.right);
    Relabelled(r, p, t.left, t.red, t.node, st.node, BlackHeight(st));
    SuccessorInOrder(p, r, t, st, c);
    TakenOut(m, m', root, root', q, st, q', c, Before(p) + InOrder(t.left), t.node, InOrder(t.right) + After(p));
  }

  /** The rewriting that links the successor to the right child of `node`. */
  ghost function Raised(m: Memory, r: Path, s: Ptr, c: Ptr): Memory
    requires s in m && (!r.Top? ==> r.node in m && First(r) in m)
  {
    if r.Top? then m else
      var m1 := m[r.node := m[r.node].(left := c)];
      var m2 := m1[s := m1[s].(right := First(r))];
      m2[First(r) := m2[First(r)].(parent := s)]
  }

  /** And then to the left one. */
  lemma RaisedCells(m: Memory, m': Memory, p: Path, r: Path, l: Tree, node: Ptr, st: Tree)
    requires l.Bin? && st.Bin? && st.node in m && l.node in m && st.node != l.node
    requires !r.Top? ==> var a, b := r.node, First(r);
      a in m && b in m && a != st.node && b != st.node && a != l.node && b != l.node && (a == b <==> r.up.Top?)
    requires r.Top? ==> m[st.node].right == Root(st.right)
    requires m' == Raised(m, r, st.node, Root(st.right))
    ensures st.node in m' && l.node in m' && node in m <==> node in m'
    ensures var m1 := m'[st.node := m'[st.node].(left := l.node)];
      Detached(m, m1[l.node := m1[l.node].(parent := st.node)], r, l, st)
  {
  }

  lemma SpineStart(m: Memory, root: Ptr, p: Path, t: Tree)
    requires At(m, root, p, t) && t.Bin? && t.left.Bin? && t.right.Bin?
    ensures t.node in m && m[t.node].right == t.right.node && t.right.node in m
    ensures m[t.right.node].left == Root(t.right.left) && (t.right.left.Nil? <==> Root(t.right.left) == NULL)
    ensures m[t.right.node].right == Root(t.right.right)
    ensures var o := InRight(p, t.left, t.red, t.node);
      && Append(Top, o) == o && AllLeft(Top) && At(m, root, o, t.right) && Plug(o, t.right) == Plug(p, t)
      && (t.right.left.Nil? ==> Spine(m, root, p, Top, t.left, t.red, t.node, t.right))
      && SpineTree(p, Top, t, t.right) == Plug(p, t)
  {
    var o := InRight(p, t.left, t.red, t.node);
    SeenAcross(m, root, o, t.right);
    assert ParentTree(o, t.right) == t && Append(Top, o) == o;
    OpenLinkedAt(m, root, p, t);
    OpenLinkedAt(m, root, o, t.right);
  }

  /** What is read after the successor was linked to the children of `node`. */
  lemma DetachedView(m: Memory, m': Memory, root: Ptr, p: Path, r: Path, l: Tree, red: bool, node: Ptr, st: Tree)
    requires node != NULL && l.Bin? && st.Bin? && Spine(m, root, p, r, l, red, node, st) && Detached(m, m', r, l, st)
    ensures PathLinked(m', p, node, root, NULL) && PathDistinct(p, SpineNodes(r, l, node, st))
    ensures node in SpineNodes(r, l, node, st) && node != NULL && node in m' && m'.Keys == m.Keys
    ensures m'[node].parent == Up(p, NULL) && m'[node].red == red && (Up(p, NULL) != NULL ==> Up(p, NULL) in m')
    ensures st.node in m' && st.node != Up(p, NULL) && st.node != Root(st.right)
    ensures m'[st.node].red == st.red
    ensures Root(st.right) != NULL ==> Root(st.right) in m'
  {
    SuccessorApart(m, root, p, r, l, red, node, st);
    SuccessorInside(m, root, p, r, l, red, node, st);
    var ends: set<Ptr> := if r.Top? then {} else {r.node, First(r)};
    hide Nodes, PathNodes, Distinct, PathDistinct, PathLinked, Linked, Append, AllLeft, At;
    PathKept(m, m', p, node, root, SpineNodes(r, l, node, st), {st.node, l.node} + ends);
  }

  ghost function SpineNodes(r: Path, l: Tree, node: Ptr, st: Tree): set<Ptr> {
    Nodes(l) + {node} + (Nodes(st) + PathNodes(r))
  }

  lemma SuccessorInside(m: Memory, root: Ptr, p: Path, r: Path, l: Tree, red: bool, node: Ptr, st: Tree)
    requires l.Bin? && st.Bin? && Spine(m, root, p, r, l, red, node, st)
    ensures PathDistinct(p, SpineNodes(r, l, node, st))
    ensures st.node in Nodes(st) && l.node in Nodes(l) && (st.right.Bin? ==> st.right.node in Nodes(st))
    ensures !r.Top? ==> r.node in PathNodes(r) && First(r) in PathNodes(r)
  {
    AppendDistinct(r, InRight(p, l, red, node), Nodes(st));
    if !r.Top? {
      FirstInside(r);
    }
  }

  /** After the links from above and to the successor's child are changed too. */
  lemma PlacedKept(m: Memory, m1: Memory, m': Memory, root: Ptr, root': Ptr, p: Path, r: Path, l: Tree, red: bool, node: Ptr, st: Tree)
    requires l.Bin? && st.Bin? && Spine(m, root, p, r, l, red, node, st)
    requires PathLinked(m1, p, st.node, root', NULL)
    requires Same(m1, m', {st.node, Root(st.right)})
    ensures PathLinked(m', p, st.node, root', NULL)
  {
    SuccessorInside(m, root, p, r, l, red, node, st);
    PathKept(m1, m', p, st.node, root', SpineNodes(r, l, node, st), {st.node, Root(st.right)});
  }

  /** The last steps of moving the successor: its child's new parent and colour, then
      its own. */
  ghost function Placed(m: Memory, s: Ptr, c: Ptr, parent: Ptr, above: Ptr, red: bool): Memory
    requires s in m && (c != NULL ==> c in m)
  {
    var m3 := if c == NULL then m else m[c := m[c].(parent := parent, red := false)];
    m3[s := m3[s].(parent := above, red := red)]
  }

  lemma PlacedSame(m: Memory, s: Ptr, c: Ptr, parent: Ptr, above: Ptr, red: bool)
    requires s in m && (c != NULL ==> c in m)
    ensures Same(m, Placed(m, s, c, parent, above, red), {s, c})
  {
  }

  lemma SuccessorTaken(m: Memory, m1: Memory, m2: Memory, m': Memory, root: Ptr, root': Ptr, p: Path, r: Path, t: Tree, st: Tree, parent: Ptr)
    requires t.Bin? && t.left.Bin? && st.Bin? && Spine(m, root, p, r, t.left, t.red, t.node, st)
    requires SpineTree(p, r, t, st) == Plug(p, t) && RedBlack(Plug(p, t))
    requires parent == if r.Top? then st.node else r.node
    requires Detached(m, m1, r, t.left, st) && Same(m1, m2, {Up(p, NULL)}) && PathLinked(m2, p, st.node, root', NULL)
    requires st.node in m2 && (Root(st.right) != NULL ==> Root(st.right) in m2)
    requires m' == Placed(m2, st.node, Root(st.right), parent, Up(p, NULL), t.red)
    ensures st.node in m2 && m2[st.node].red == st.red
    ensures var rebalance := if Root(st.right) == NULL && !st.red then parent else NULL;
      Unlinked(m', root', p, t, rebalance, Append(r, InRight(p, t.left, t.red, st.node)), Painted(st.right, false))
  {
    var l, s, c := t.left, st.node, Root(st.right);
    var q := Append(r, InRight(p, l, t.red, s));
    hide Spine, SpineTree, Same, Placed;
    assert Up(q, NULL) == parent;
    SuccessorApart(m, root, p, r, l, t.red, t.node, st);
    PlacedSame(m2, s, c, parent, Up(p, NULL), t.red);
    hide Nodes, PathNodes, Distinct, PathDistinct, PathLinked, Linked, Append, AllLeft, At, Plug, InOrder;
    hide Balanced, Before, After, Unlinked, Detached, SplicedCells;
    PlacedKept(m, m2, m', root, root', p, r, l, t.red, t.node, st);
    PlacedCells(m, m1, m2, m', p, r, l, t.red, st);
    SuccessorSpliced(m, m', root, root', p, r, l, t.red, t.node, st);
    SuccessorUnlinked(m, m', root, root', p, r, t, st, if c == NULL && !st.red then parent else NULL);
  }

  lemma PlacedCells(m: Memory, m1: Memory, m2: Memory, m': Memory, p: Path, r: Path, l: Tree, red: bool, st: Tree)
    requires l.Bin? && st.Bin? && st.node in m && st.node != NULL
    requires Detached(m, m1, r, l, st) && Same(m1, m2, {Up(p, NULL)})
    requires (Root(st.right) in m || Root(st.right) == NULL) && (st.right.Nil? <==> Root(st.right) == NULL) && st.node in m2
    requires m' == Placed(m2, st.node, Root(st.right), if r.Top? then st.node else r.node, Up(p, NULL), red)
    requires var s, c, up := st.node, Root(st.right), Up(p, NULL);
      && s != c && s != l.node && s != up && c != l.node && (c != NULL ==> c != up) && l.node != up
      && (!r.Top? ==> var a, b := r.node, First(r);
           && a != s && b != s && a != c && b != c && a != l.node && b != l.node && a != up && b != up
           && (a == b <==> r.up.Top?))
    ensures SplicedCells(m, m', p, r, l, red, st) && m2[st.node].red == m[st.node].red
  {
  }

  /** The links once the only child `c` of `t.node`, if any, stands in its place. */
  lemma OnlyChildTaken(m: Memory, m': Memory, root: Ptr, root': Ptr, p: Path, t: Tree, c: Tree)
    requires At(m, root, p, t) && RedBlack(Plug(p, t)) && t.Bin?
    requires (t.left.Nil? && c == t.right) || (t.right.Nil? && c == t.left)
    requires PathLinked(m', p, Root(c), root', NULL) && Same(m, m', {Up(p, NULL), Root(c)})
    requires c.Bin? && c.node in m ==> m'[c.node] == m[c.node].(parent := Up(p, NULL), red := t.red)
    ensures Unlinked(m', root', p, t, if c.Nil? && !t.red then Up(p, NULL) else NULL, p, Painted(c, false))
  {
    PlugRedBlack(p, t);
    OnlyChildFits(t, c);
    OnlyChildView(m, root, p, t, c);
    hide Distinct, PathDistinct, Nodes, PathNodes, Linked, PathLinked, At, Plug, RedBlack;
    ChildMoved(m, m', c, t.node, Up(p, NULL), {Up(p, NULL), Root(c)});
    var a, b, d := Before(p) + InOrder(t.left), InOrder(t.right) + After(p), Painted(c, false);
    Around(Before(p), InOrder(t.left), t.node, InOrder(t.right), After(p));
    assert Before(p) + InOrder(d) + After(p) == a + b by { OnlyChildInOrder(p, t, c); }
    hide Balanced, BlackHeight, InOrder, Before, After, Same, PathBalanced;
    TakenOut(m, m', root, root', p, t, p, d, a, t.node, b);
    UnlinkedAt(m', root', p, t, if c.Nil? && !t.red then Up(p, NULL) else NULL, d);
  }

  lemma OnlyChildInOrder(p: Path, t: Tree, c: Tree)
    requires t.Bin? && ((t.left.Nil? && c == t.right) || (t.right.Nil? && c == t.left))
    ensures Before(p) + InOrder(Painted(c, false)) + After(p) == Before(p) + InOrder(t.left) + (InOrder(t.right) + After(p))
  {
    assert InOrder(Nil) == [];
    assert t.left.Nil? ==> Before(p) + InOrder(t.left) == Before(p);
    assert t.right.Nil? ==> InOrder(t.right) + After(p) == After(p);
  }

  lemma OnlyChildView(m: Memory, root: Ptr, p: Path, t: Tree, c: Tree)
    requires At(m, root, p, t) && t.Bin? && (c == t.right || c == t.left)
    ensures Linked(m, c, t.node) && Distinct(c)
    ensures Nodes(c) - {Root(c)} !! {Up(p, NULL), Root(c)} && Root(Painted(c, false)) == Root(c)
    ensures p.Top? || (Up(p, NULL) != NULL)
  {
    UpOutside(p, Nodes(t));
  }

  lemma UnlinkedAt(m: Memory, root: Ptr, p: Path, t: Tree, rebalance: Ptr, c: Tree)
    requires t.Bin? && At(m, root, p, c)
    requires Before(p) + InOrder(c) + After(p) == Before(p) + InOrder(t.left) + InOrder(t.right) + After(p)
    requires rebalance == NULL ==> p.Top? || BlackHeight(c) == BlackHeight(t)
    requires rebalance != NULL ==> c == Nil && !p.Top? && p.node == rebalance && BlackHeight(t) == 1
    requires Balanced(c) && PathBalanced(p, BlackHeight(t)) && !IsRed(c)
    ensures Unlinked(m, root, p, t, rebalance, p, c)
  {
  }

  lemma UpInside(m: Memory, root: Ptr, p: Path, t: Tree)
    requires At(m, root, p, t) && t.Bin?
    ensures Up(p, NULL) != NULL ==> Up(p, NULL) in m
    ensures PathDistinct(p, Nodes(t)) && PathLinked(m, p, t.node, root, NULL) && t.node in Nodes(t)
    ensures t.left.Bin? ==> t.left.node in Nodes(t) && t.left.node in m && t.left.node != NULL && t.left.node != Up(p, NULL)
    ensures t.right.Bin? ==> t.right.node in Nodes(t) && t.right.node in m && t.right.node != NULL && t.right.node != Up(p, NULL)
  {
    UpOutside(p, Nodes(t));
  }

  lemma ErasedInOrder(p: Path, t: Tree)
    requires t.Bin? && Distinct(Plug(p, t))
    ensures Without(InOrder(Plug(p, t)), t.node) == Before(p) + InOrder(t.left) + InOrder(t.right) + After(p)
  {
    PlugInOrder(p, t);
    InOrderDistinct(Plug(p, t));
    var a, b := Before(p) + InOrder(t.left), InOrder(t.right) + After(p);
    Around(Before(p), InOrder(t.left), t.node, InOrder(t.right), After(p));
    NoRepeatsSplit(a, t.node, b);
    WithoutMiddle(a, t.node, b);
  }

  // ----- linking a leaf -----

  lemma Linked0(m: Memory, m': Memory, root: Ptr, root': Ptr, p: Path, node: Ptr)
    requires At(m, root, p, Nil) && node != NULL && node !in PathNodes(p) && node in m'
    requires m'[node] == Cell(Up(p, NULL), true, NULL, NULL) && m'.Keys == m.Keys + {node}
    requires forall n | n in m && n != Up(p, NULL) && n != node :: m'[n] == m[n]
    requires match p
      case Top => root' == node
      case InLeft(_, _, n, _) => root == root' && n in m && m'[n] == m[n].(left := node)
      case InRight(_, _, _, n) => root == root' && n in m && m'[n] == m[n].(right := node)
    ensures At(m', root', p, Bin(Nil, true, node, Nil))
  {
    PathCarried(m, m', p, NULL, node, root, root', NULL, {});
    Apart(p, {}, {node});
    assert {} + {node} == {node} == Nodes(Bin(Nil, true, node, Nil));
    assert Nodes(Nil) == {};
    assert Linked(m', Nil, node);
  }

  lemma {:induction false} Apart(p: Path, below: set<Ptr>, more: set<Ptr>)
    requires PathDistinct(p, below) && more !! PathNodes(p)
    ensures PathDistinct(p, below + more)
    decreases p
  {
    match p
    case Top =>
    case InLeft(up, _, n, r) =>
      Apart(up, below + {n} + Nodes(r), more);
      assert below + {n} + Nodes(r) + more == below + more + {n} + Nodes(r);
    case InRight(up, l, _, n) =>
      Apart(up, Nodes(l) + {n} + below, more);
      assert Nodes(l) + {n} + below + more == Nodes(l) + {n} + (below + more);
  }
}
