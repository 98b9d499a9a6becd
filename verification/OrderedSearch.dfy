/** Searching a tree whose nodes stand in descending order of the names of their
    containers: what is known on the way down, and at the bottom. */
module OrderedSearch {
  import opened Collections
  import opened ByteOrder
  import opened RedBlackShape
  import opened RedBlackMemory
  import opened RedBlackTree

  /** The names of the containers, by node. */
  type Names = map<Ptr, Bytes>

  type Order = (Bytes, Bytes) -> int

  ghost predicate Descending(s: seq<Ptr>, names: Names, cmp: Order) {
    && (forall n | n in s :: n in names)
    && (forall i, j | 0 <= i < j < |s| :: cmp(names[s[i]], names[s[j]]) > 0)
  }

  /** Everything before the hole has a greater name, everything after it a smaller one. */
  ghost predicate Narrowed(p: Path, names: Names, cmp: Order, name: Bytes) {
    && (forall n | n in Before(p) :: n in names && cmp(names[n], name) > 0)
    && (forall n | n in After(p) :: n in names && cmp(names[n], name) < 0)
  }

  /** The step to either side, in memory. */
  lemma StepDown(m: Memory, root: Ptr, p: Path, t: Tree)
    requires At(m, root, p, t) && t.Bin?
    ensures t.node != NULL && t.node in m && m[t.node].left == Root(t.left) && m[t.node].right == Root(t.right)
    ensures t.left.Nil? <==> m[t.node].left == NULL
    ensures t.right.Nil? <==> m[t.node].right == NULL
    ensures var l, r := InLeft(p, t.red, t.node, t.right), InRight(p, t.left, t.red, t.node);
      && At(m, root, l, t.left) && Plug(l, t.left) == Plug(p, t)
      && At(m, root, r, t.right) && Plug(r, t.right) == Plug(p, t)
  {
    var l, r := InLeft(p, t.red, t.node, t.right), InRight(p, t.left, t.red, t.node);
    OpenLinkedAt(m, root, p, t);
    SeenAcross(m, root, l, t.left);
    SeenAcross(m, root, r, t.right);
    assert ParentTree(l, t.left) == t == ParentTree(r, t.right);
  }

  lemma Sides(a: seq<Ptr>, x: Ptr, b: seq<Ptr>, names: Names, cmp: Order)
    requires Descending(a + [x] + b, names, cmp)
    ensures x in names
    ensures forall n | n in a :: n in names && cmp(names[n], names[x]) > 0
    ensures forall n | n in b :: n in names && cmp(names[x], names[n]) > 0
  {
    var s := a + [x] + b;
    assert s[|a|] == x && x in s;
    forall n | n in a ensures n in names && cmp(names[n], names[x]) > 0 {
      var i :| 0 <= i < |a| && a[i] == n;
      assert s[i] == n && n in s && cmp(names[s[i]], names[s[|a|]]) > 0;
    }
    forall n | n in b ensures n in names && cmp(names[x], names[n]) > 0 {
      var i :| 0 <= i < |b| && b[i] == n;
      assert s[|a| + 1 + i] == n && n in s && cmp(names[s[|a|]], names[s[|a| + 1 + i]]) > 0;
    }
  }

  lemma TreeSides(p: Path, t: Tree, names: Names, cmp: Order)
    requires Descending(InOrder(Plug(p, t)), names, cmp) && t.Bin?
    ensures t.node in names
    ensures forall n | n in InOrder(t.left) :: n in names && cmp(names[n], names[t.node]) > 0
    ensures forall n | n in InOrder(t.right) :: n in names && cmp(names[t.node], names[n]) > 0
  {
    PlugInOrder(p, t);
    Around(Before(p), InOrder(t.left), t.node, InOrder(t.right), After(p));
    Sides(Before(p) + InOrder(t.left), t.node, InOrder(t.right) + After(p), names, cmp);
  }

  lemma NarrowLeft(p: Path, t: Tree, names: Names, cmp: Order, name: Bytes)
    requires TotalOrder(cmp) && Descending(InOrder(Plug(p, t)), names, cmp) && t.Bin?
    requires Narrowed(p, names, cmp, name) && t.node in names && cmp(names[t.node], name) < 0
    ensures Narrowed(InLeft(p, t.red, t.node, t.right), names, cmp, name)
  {
    hide TotalOrder;
    TreeSides(p, t, names, cmp);
    forall n | n in InOrder(t.right) ensures cmp(names[n], name) < 0 {
      Compare3(cmp, names[n], names[t.node], name);
      Compare3(cmp, names[t.node], names[n], name);
    }
  }

  lemma NarrowRight(p: Path, t: Tree, names: Names, cmp: Order, name: Bytes)
    requires TotalOrder(cmp) && Descending(InOrder(Plug(p, t)), names, cmp) && t.Bin?
    requires Narrowed(p, names, cmp, name) && t.node in names && cmp(names[t.node], name) > 0
    ensures Narrowed(InRight(p, t.left, t.red, t.node), names, cmp, name)
  {
    hide TotalOrder;
    TreeSides(p, t, names, cmp);
    forall n | n in InOrder(t.left) ensures cmp(names[n], name) > 0 {
      Compare3(cmp, names[n], names[t.node], name);
    }
  }

  /** At an empty place the name is nowhere, and there is its place in the order. */
  lemma NotFound(p: Path, names: Names, cmp: Order, name: Bytes, node: Ptr)
    requires TotalOrder(cmp) && Descending(InOrder(Plug(p, Nil)), names, cmp) && Narrowed(p, names, cmp, name)
    ensures forall n | n in InOrder(Plug(p, Nil)) :: names[n] != name
    ensures node !in InOrder(Plug(p, Nil)) ==> Descending(Before(p) + [node] + After(p), names[node := name], cmp)
  {
    hide TotalOrder;
    PlugInOrder(p, Nil);
    var s, b, a := InOrder(Plug(p, Nil)), Before(p), After(p);
    assert InOrder(Nil) == [] && s == b + a;
    hide InOrder, Plug, Before, After;
    Compare3(cmp, name, name, name);
    forall n | n in s ensures n in b || n in a {}
    if node !in s {
      var names' := names[node := name];
      forall n | n in b ensures n in s && cmp(names[n], name) > 0 {}
      forall n | n in a ensures n in s && cmp(name, names[n]) > 0 { Compare3(cmp, names[n], name, name); }
      Spliced(b, node, a, names, cmp, name);
    }
  }

  lemma Spliced(b: seq<Ptr>, node: Ptr, a: seq<Ptr>, names: Names, cmp: Order, name: Bytes)
    requires Descending(b + a, names, cmp) && node !in b && node !in a
    requires forall n | n in b :: n in names && cmp(names[n], name) > 0
    requires forall n | n in a :: n in names && cmp(name, names[n]) > 0
    ensures Descending(b + [node] + a, names[node := name], cmp)
  {
    var s, s', names' := b + a, b + [node] + a, names[node := name];
    forall i, j | 0 <= i < j < |s'| ensures cmp(names'[s'[i]], names'[s'[j]]) > 0 {
      if i == |b| {
        assert s'[j] == a[j - |b| - 1] && s'[j] in a;
      } else if j == |b| {
        assert s'[i] == b[i] && s'[i] in b;
      } else {
        var i', j' := if i < |b| then i else i - 1, if j < |b| then j else j - 1;
        assert s'[i] == s[i'] && s'[j] == s[j'] && s[i'] != node && s[j'] != node;
        assert cmp(names[s[i']], names[s[j']]) > 0;
      }
    }
  }

  /** Descending names are distinct, and stay descending when one is taken out. */
  lemma DescendingNames(s: seq<Ptr>, names: Names, cmp: Order)
    requires TotalOrder(cmp) && Descending(s, names, cmp)
    ensures forall a, b | a in s && b in s && names[a] == names[b] :: a == b
    ensures NoRepeats(s)
  {
    hide TotalOrder;
    forall i, j | 0 <= i < j < |s| ensures names[s[i]] != names[s[j]] {
      assert cmp(names[s[i]], names[s[j]]) > 0;
      Compare3(cmp, names[s[i]], names[s[i]], names[s[i]]);
    }
    forall a, b | a in s && b in s && names[a] == names[b] ensures a == b {
      var i :| 0 <= i < |s| && s[i] == a;
      var j :| 0 <= j < |s| && s[j] == b;
      assert !(i < j) && !(j < i);
    }
  }

  lemma {:induction false} WithoutMembers<T>(s: seq<T>, x: T, y: T)
    requires NoRepeats(s)
    ensures y in Without(s, x) <==> y in s && y != x
    ensures NoRepeats(Without(s, x))
  {
    if s != [] {
      var r := s[1..];
      assert s == [] + [s[0]] + r;
      NoRepeatsSplit([], s[0], r);
      hide NoRepeats;
      WithoutMembers(r, x, y);
      if s[0] != x {
        WithoutMembers(r, x, s[0]);
        NoRepeatsJoin([], s[0], Without(r, x));
        assert [] + [s[0]] + Without(r, x) == Without(s, x);
      }
    }
  }

  lemma {:induction false} WithoutDescending(s: seq<Ptr>, x: Ptr, names: Names, cmp: Order)
    requires Descending(s, names, cmp)
    ensures Descending(Without(s, x), names, cmp)
    ensures forall n | n in Without(s, x) :: n in s
  {
    if s != [] {
      var r, w := s[1..], Without(s[1..], x);
      assert forall i | 0 <= i < |r| :: r[i] == s[i + 1];
      forall n | n in r ensures n in s {}
      assert Descending(r, names, cmp);
      if s[0] != x {
        WithoutDescending(r, x, names, cmp);
        forall n | n in w ensures cmp(names[s[0]], names[n]) > 0 {
          var k :| 0 <= k < |r| && r[k] == n;
          assert s[k + 1] == n && cmp(names[s[0]], names[s[k + 1]]) > 0;
        }
        Prepended(s[0], w, names, cmp);
      }
    }
  }

  lemma Prepended(x: Ptr, w: seq<Ptr>, names: Names, cmp: Order)
    requires Descending(w, names, cmp) && x in names
    requires forall n | n in w :: cmp(names[x], names[n]) > 0
    ensures Descending([x] + w, names, cmp)
  {
    var s := [x] + w;
    forall i, j | 0 <= i < j < |s| ensures cmp(names[s[i]], names[s[j]]) > 0 {
      assert s[j] == w[j - 1] && w[j - 1] in w;
      if i > 0 {
        assert s[i] == w[i - 1] && cmp(names[w[i - 1]], names[w[j - 1]]) > 0;
      }
    }
  }

  lemma Filled(p: Path, node: Ptr)
    ensures forall n :: n in Before(p) + [node] + After(p) <==> n == node || n in InOrder(Plug(p, Nil))
  {
    PlugInOrder(p, Nil);
    assert InOrder(Nil) == [];
  }

  /** The search loop: down from the root to the node of that name, or to the empty
      place where a new node of that name belongs. */
  method Search(tree: RbTree, names: Names, cmp: Order, name: Bytes) returns (found: Ptr, parent: Ptr, onLeft: bool, ghost p: Path)
    requires tree.Valid() && TotalOrder(cmp) && Descending(InOrder(tree.tree), names, cmp)
    ensures found != NULL ==> found in InOrder(tree.tree) && found in names && names[found] == name
    ensures found == NULL ==> EmptyPlace(tree.tree, p, parent, onLeft) && Narrowed(p, names, cmp, name)
  {
    OpenLinkedAt(tree.mem, tree.root, Top, tree.tree);
    RootOfAll(tree);
    hide At, TotalOrder, Descending, Plug, InOrder, RedBlack, Narrowed, Before, After;
    found, parent, onLeft, p := tree.root, NULL, false, Top;
    ghost var t := tree.tree;
    NarrowedTop(names, cmp, name);
    while found != NULL
      invariant At(tree.mem, tree.root, p, t) && Plug(p, t) == tree.tree && found == Root(t) && parent == Up(p, NULL)
      invariant (t.Nil? <==> found == NULL) && (parent != NULL ==> onLeft == p.InLeft?)
      invariant Narrowed(p, names, cmp, name)
      decreases t
    {
      StepDown(tree.mem, tree.root, p, t);
      Present(p, t);
      TreeSides(p, t, names, cmp);
      var res := cmp(names[found], name);
      if res < 0 {
        NarrowLeft(p, t, names, cmp, name);
        parent, onLeft := found, true;
        found := tree.mem[found].left;
        p, t := InLeft(p, t.red, t.node, t.right), t.left;
      } else if res > 0 {
        NarrowRight(p, t, names, cmp, name);
        parent, onLeft := found, false;
        found := tree.mem[found].right;
        p, t := InRight(p, t.left, t.red, t.node), t.right;
      } else {
        Compare3(cmp, names[found], name, name);
        return;
      }
    }
  }

  lemma RootOfAll(tree: RbTree)
    requires tree.Valid()
    ensures tree.root == Root(tree.tree) && (tree.tree.Nil? <==> tree.root == NULL)
  {
    RootInside(tree.tree);
  }

  ghost predicate EmptyPlace(tree: Tree, p: Path, parent: Ptr, onLeft: bool) {
    Plug(p, Nil) == tree && parent == Up(p, NULL) && (parent != NULL ==> onLeft == p.InLeft?)
  }

  lemma NarrowedTop(names: Names, cmp: Order, name: Bytes)
    ensures Narrowed(Top, names, cmp, name) && forall t :: Plug(Top, t) == t
  {
  }

  lemma Present(p: Path, t: Tree)
    requires t.Bin?
    ensures t.node in InOrder(Plug(p, t))
  {
    PlugInOrder(p, t);
    Around(Before(p), InOrder(t.left), t.node, InOrder(t.right), After(p));
    assert ((Before(p) + InOrder(t.left)) + [t.node] + (InOrder(t.right) + After(p)))[|Before(p) + InOrder(t.left)|] == t.node;
  }

  lemma FewerNames(s: seq<Ptr>, names: Names, names': Names, cmp: Order)
    requires Descending(s, names, cmp) && (forall n | n in s :: n in names' && names'[n] == names[n])
    ensures Descending(s, names', cmp)
  {
    forall i, j | 0 <= i < j < |s| ensures cmp(names'[s[i]], names'[s[j]]) > 0 {
      assert s[i] in s && s[j] in s && cmp(names[s[i]], names[s[j]]) > 0;
    }
  }

  /** Without a node, just that node is missing. */
  lemma WithoutExactly(s: seq<Ptr>, names: Names, node: Ptr, cmp: Order)
    requires Descending(s, names, cmp) && TotalOrder(cmp)
    ensures forall n :: n in Without(s, node) <==> n in s && n != node
  {
    hide Without, Descending, TotalOrder;
    DescendingNames(s, names, cmp);
    hide NoRepeats;
    forall n ensures n in Without(s, node) <==> n in s && n != node {
      WithoutMembers(s, node, n);
    }
  }
}
