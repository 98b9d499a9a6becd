/** The user table of the SOCKS5 server: users kept in the search tree by name. */
module Authenticator {
  import opened ByteOrder
  import opened OrderedSearch
  import opened RedBlackShape
  import opened RedBlackMemory
  import opened RedBlackTree

  datatype User = User(name: Bytes, pass: Bytes)

  /** The user object around each node. */
  type Users = map<Ptr, User>

  /** Names to user objects. */
  type Contents = map<Bytes, Ptr>

  function NamesOf(users: Users): Names {
    map n | n in users :: users[n].name
  }

  /** The finite map knows every user by name, and nothing else. */
  ghost predicate Indexed(users: Users, contents: Contents) {
    && (forall k | k in contents :: contents[k] in users && users[contents[k]].name == k)
    && (forall n | n in users :: users[n].name in contents && contents[users[n].name] == n)
  }

  /** The tree holds exactly the users, in order, and `contents` is that table as a
      finite map: every name once, on the user of that name. */
  ghost predicate Holds(s: seq<Ptr>, users: Users, contents: Contents) {
    var names := NamesOf(users);
    && (forall n :: n in users <==> n in s)
    && Descending(s, names, CompareByLength)
    && Indexed(users, contents)
  }

  class Table {
    const tree: RbTree
    var users: Users
    ghost var contents: Contents

    ghost predicate Valid()
      reads this, tree
    {
      var s := InOrder(tree.tree);
      tree.Valid() && Holds(s, users, contents)
    }

    constructor ()
      ensures Valid() && contents == map[] && users == map[] && fresh(tree)
    {
      tree := new RbTree();
      users, contents := map[], map[];
    }

    /** Refuses a second user of the same name. */
    method Add(node: Ptr, user: User) returns (res: int)
      requires Valid() && node != NULL && node !in users
      modifies this, tree
      ensures Valid() && res == if user.name in old(contents) then -1 else 0
      ensures res == 0 ==> contents == old(contents)[user.name := node] && users == old(users)[node := user]
      ensures res != 0 ==> contents == old(contents) && users == old(users)
    {
      LengthOrderIsTotal();
      HeldNode(InOrder(tree.tree), users, contents, node);
      InOrderMember(tree.tree, node);
      hide TotalOrder, Descending, Holds, InOrder, Before, After, Plug;
      var found, parent, onLeft;
      ghost var p;
      found, parent, onLeft, p := Search(tree, NamesOf(users), CompareByLength, user.name);
      if found == NULL {
        NotFound(p, NamesOf(users), CompareByLength, user.name, node);
      }
      HeldName(InOrder(tree.tree), users, contents, found, user.name);
      if found != NULL {
        return -1;
      }
      Insert(node, user, parent, onLeft, p);
      res := 0;
    }

    /** Links a user of a new name into its place. */
    method Insert(node: Ptr, user: User, parent: Ptr, onLeft: bool, ghost p: Path)
      requires Valid() && node != NULL && node !in users && user.name !in contents
      requires EmptyPlace(tree.tree, p, parent, onLeft) && Narrowed(p, NamesOf(users), CompareByLength, user.name)
      modifies this, tree
      ensures Valid() && contents == old(contents)[user.name := node] && users == old(users)[node := user]
    {
      hide Holds, InOrder, Before, After, Plug, Narrowed;
      Inserted(tree.tree, users, contents, node, user, p);
      tree.Link(node, parent, onLeft, p);
      tree.InsertColor(node, p);
      users := users[node := user];
      contents := contents[user.name := node];
    }

    method Get(name: Bytes) returns (user: Ptr)
      requires Valid()
      ensures user == if name in contents then contents[name] else NULL
    {
      LengthOrderIsTotal();
      HeldNode(InOrder(tree.tree), users, contents, NULL);
      hide TotalOrder, Descending, Holds, InOrder;
      var parent, onLeft;
      ghost var p;
      user, parent, onLeft, p := Search(tree, NamesOf(users), CompareByLength, name);
      if user == NULL {
        NotFound(p, NamesOf(users), CompareByLength, name, NULL);
      }
      HeldName(InOrder(tree.tree), users, contents, user, name);
    }

    method Del(name: Bytes) returns (res: int)
      requires Valid()
      modifies this, tree
      ensures Valid() && res == if name in old(contents) then 0 else -1
      ensures contents == old(contents) - {name}
      ensures users == if name in old(contents) then old(users) - {old(contents)[name]} else old(users)
    {
      var node := Get(name);
      if node == NULL {
        HeldNull(tree, users, contents);
        assert contents - {name} == contents;
        return -1;
      }
      Drop(node);
      res := 0;
    }

    /** Takes a user's node out of the tree and lets go of the user. */
    method Drop(node: Ptr)
      requires Valid() && node in users
      modifies this, tree
      ensures Valid() && users == old(users) - {node} && contents == old(contents) - {old(users[node]).name}
    {
      LengthOrderIsTotal();
      HeldNode(InOrder(tree.tree), users, contents, node);
      InOrderMember(tree.tree, node);
      hide TotalOrder, Descending, Holds, InOrder, Without;
      Dropped(InOrder(tree.tree), users, contents, node);
      tree.Erase(node);
      contents := contents - {users[node].name};
      users := users - {node};
    }

    method Clear()
      requires Valid()
      modifies this, tree
      ensures Valid() && contents == map[] && users == map[]
    {
      hide Holds, InOrder, RedBlack, At;
      var n := tree.Leftmost();
      while n != NULL
        invariant Valid() && (n == NULL <==> tree.tree.Nil?)
        invariant n != NULL ==> n in Nodes(tree.tree)
        decreases users.Keys
      {
        HeldNode(InOrder(tree.tree), users, contents, n);
        InOrderMember(tree.tree, n);
        Drop(n);
        n := tree.Leftmost();
      }
      EmptyInOrder(tree.tree);
      HeldNone(users, contents);
    }
  }

  // ----- the table as a map -----

  lemma HeldNode(s: seq<Ptr>, users: Users, contents: Contents, node: Ptr)
    requires Holds(s, users, contents)
    ensures Descending(s, NamesOf(users), CompareByLength) && (node in users <==> node in s)
    ensures forall n | n in users :: n in NamesOf(users) && NamesOf(users)[n] == users[n].name
  {
  }

  lemma HeldNull(tree: RbTree, users: Users, contents: Contents)
    requires tree.Valid() && Holds(InOrder(tree.tree), users, contents)
    ensures NULL !in users && NULL !in contents.Values
  {
    InOrderMember(tree.tree, NULL);
  }

  lemma HeldName(s: seq<Ptr>, users: Users, contents: Contents, found: Ptr, name: Bytes)
    requires Holds(s, users, contents)
    requires found != NULL ==> found in s && NamesOf(users)[found] == name
    ensures found != NULL ==> name in contents && contents[name] == found
    ensures found == NULL && (forall n | n in s :: NamesOf(users)[n] != name) ==> name !in contents
  {
    if name in contents {
      assert contents[name] in s;
    }
  }

  lemma Added(s: seq<Ptr>, s': seq<Ptr>, users: Users, contents: Contents, node: Ptr, user: User)
    requires Holds(s, users, contents) && node !in users && user.name !in contents
    requires forall n :: n in s' <==> n == node || n in s
    requires Descending(s', NamesOf(users)[node := user.name], CompareByLength)
    ensures Holds(s', users[node := user], contents[user.name := node])
  {
    hide CompareByLength, Descending;
    assert NamesOf(users[node := user]) == NamesOf(users)[node := user.name];
  }

  lemma Inserted(t: Tree, users: Users, contents: Contents, node: Ptr, user: User, p: Path)
    requires Holds(InOrder(t), users, contents) && node !in users && user.name !in contents
    requires Plug(p, Nil) == t && Narrowed(p, NamesOf(users), CompareByLength, user.name)
    ensures Holds(Before(p) + [node] + After(p), users[node := user], contents[user.name := node])
    ensures node !in Nodes(t)
  {
    LengthOrderIsTotal();
    HeldNode(InOrder(t), users, contents, node);
    InOrderMember(t, node);
    hide TotalOrder, Descending, Holds, InOrder, Before, After, Plug, Narrowed, CompareByLength, NamesOf;
    NotFound(p, NamesOf(users), CompareByLength, user.name, node);
    Filled(p, node);
    Added(InOrder(t), Before(p) + [node] + After(p), users, contents, node, user);
  }

  /** The map side of dropping a user. */
  lemma DroppedName(users: Users, contents: Contents, node: Ptr)
    requires node in users && Indexed(users, contents)
    ensures Indexed(users - {node}, contents - {users[node].name})
  {
    var u, c := users - {node}, contents - {users[node].name};
    forall k | k in c ensures c[k] in u && u[c[k]].name == k {
      assert contents[k] != node;
    }
    forall n | n in u ensures u[n].name in c && c[u[n].name] == n {
      assert contents[users[n].name] == n && contents[users[node].name] == node;
    }
  }

  /** The tree side of dropping a user. */
  lemma DroppedNode(s: seq<Ptr>, users: Users, node: Ptr)
    requires Descending(s, NamesOf(users), CompareByLength) && (forall n :: n in users <==> n in s)
    ensures forall n :: n in Without(s, node) <==> n in s && n != node
    ensures Descending(Without(s, node), NamesOf(users - {node}), CompareByLength)
  {
    hide CompareByLength, Without, Descending;
    LengthOrderIsTotal();
    WithoutExactly(s, NamesOf(users), node, CompareByLength);
    WithoutDescending(s, node, NamesOf(users), CompareByLength);
    FewerNames(Without(s, node), NamesOf(users), NamesOf(users - {node}), CompareByLength);
  }

  lemma Dropped(s: seq<Ptr>, users: Users, contents: Contents, node: Ptr)
    requires Holds(s, users, contents) && node in users
    ensures Holds(Without(s, node), users - {node}, contents - {users[node].name})
  {
    hide CompareByLength, Without, Indexed, Descending;
    DroppedNode(s, users, node);
    DroppedName(users, contents, node);
  }

  lemma HeldNone(users: Users, contents: Contents)
    requires Holds([], users, contents)
    ensures users == map[] && contents == map[]
  {
    assert forall n: Ptr :: n !in [];
    forall n ensures n !in users {}
    forall k ensures k !in contents {}
  }
}
