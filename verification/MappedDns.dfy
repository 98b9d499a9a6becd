/** The cache of the mapped DNS: one set of nodes under a search tree by name, a list
    by last touch, and an array by index. */
module MappedDns {
  import opened Collections
  import opened ByteOrder
  import opened LinkedList
  import opened LruCache
  import opened OrderedSearch
  import opened RedBlackMemory
  import opened RedBlackShape
  import opened RedBlackTree
  import opened Words

  /** What each node holds beside its links. */
  type Contents = map<Ptr, Entry>

  function NamesOf(nodes: Contents): Names {
    map n | n in nodes :: nodes[n].name
  }

  /** The tree holds exactly the nodes, by name. */
  ghost predicate Searched(s: seq<Ptr>, nodes: Contents) {
    var names := NamesOf(nodes);
    (forall n :: n in nodes <==> n in s) && Descending(s, names, Strcmp)
  }

  /** The list holds exactly the nodes, in the order of the cache. */
  ghost predicate Listed(items: seq<Ptr>, nodes: Contents, cache: Cache) {
    var size := |items|;
    && NoRepeats(items) && size == |cache| && (forall n | n in nodes :: n in items)
    && forall i | 0 <= i < size :: Carries(items, nodes, cache, i)
  }

  ghost predicate Carries(items: seq<Ptr>, nodes: Contents, cache: Cache, i: nat)
    requires i < |items| == |cache|
  {
    items[i] in nodes && nodes[items[i]] == cache[i]
  }

  /** The used records are exactly the nodes, each at its index; the others are empty. */
  ghost predicate Filed(records: seq<Ptr>, nodes: Contents, use: nat) {
    var length := |records|;
    && use <= length
    && (forall n | n in nodes :: nodes[n].idx < use && records[nodes[n].idx] == n)
    && (forall i | 0 <= i < use :: records[i] in nodes && nodes[records[i]].idx == i)
    && (forall i | use <= i < length :: records[i] == NULL)
  }

  ghost predicate Coherent(s: seq<Ptr>, items: seq<Ptr>, records: seq<Ptr>, nodes: Contents, cache: Cache, use: nat) {
    var size := |cache|;
    Searched(s, nodes) && Listed(items, nodes, cache) && Filed(records, nodes, use) && size == use && NULL !in nodes
  }

  class Mapper {
    const tree: RbTree
    const list: List
    const records: array<Ptr>
    const max: nat
    const net: Word
    const mask: Word
    var nodes: Contents
    var use: nat
    ghost var cache: Cache

    ghost predicate Valid()
      reads this, tree, list, records
    {
      var s, r := InOrder(tree.tree), records[..];
      tree.Valid() && list.Valid() && Coherent(s, list.items, r, nodes, cache, use) && Configured()
    }

    ghost predicate Configured() {
      var room := Signed(Not(mask));
      1 <= max == records.Length && max <= room
    }

    constructor (net: Word, mask: Word, max: nat)
      requires max <= Signed(Not(mask))
      ensures 1 <= max ==> Valid()
      ensures cache == [] && this.net == net && this.mask == mask && this.max == max == records.Length && nodes == map[] && use == 0
      ensures fresh(tree) && fresh(list) && fresh(records)
    {
      tree := new RbTree();
      list := new List();
      records := new Ptr[max](_ => NULL);
      nodes, use, cache := map[], 0, [];
      this.net, this.mask, this.max := net, mask, max;
    }

    /** Moves a node to the end of the list. */
    method Refresh(node: Ptr, ghost k: nat)
      requires Valid() && k < |list.items| && list.items[k] == node
      modifies this, list
      ensures Valid() && k < |old(cache)| && cache == Touch(old(cache), k)
      ensures nodes == old(nodes) && use == old(use)
    {
      hide Searched, Listed, Filed, InOrder, Chained, At, RedBlack;
      Refreshed(list.items, nodes, cache, k);
      list.Del(node);
      list.AddTail(node);
      cache := Touch(cache, k);
    }

    /** Refuses more indices than the network has host addresses. */
    static method New(net: Word, mask: Word, max: nat) returns (mapper: Mapper?)
      ensures mapper == null <==> max > Signed(Not(mask))
      ensures mapper != null ==> fresh(mapper) && fresh(mapper.tree) && fresh(mapper.list) && fresh(mapper.records)
      ensures mapper != null && 1 <= max ==> mapper.Valid()
      ensures mapper != null ==> mapper.cache == [] && mapper.max == max == mapper.records.Length && mapper.net == net && mapper.mask == mask
    {
      if max > Signed(Not(mask)) {
        return null;
      }
      mapper := new Mapper(net, mask, max);
    }

    /** The name behind an address, if its host bits are an index in use. */
    method Lookup(ip: Word) returns (found: bool, name: Bytes)
      requires Valid()
      modifies this, list
      ensures Valid() && cache == Step(old(cache), max, Op.Lookup(And(ip, Not(mask))))
      ensures var k := ByIndex(old(cache), And(ip, Not(mask)));
        if found then k < |old(cache)| && name == old(cache)[k].name else k == |old(cache)|
    {
      hide Searched, Listed, Filed, InOrder, Chained, Sound, At, RedBlack;
      CoherentSound(InOrder(tree.tree), list.items, records[..], nodes, cache, use, max);
      found, name := false, [];
      var idx := Signed(And(ip, Not(mask)));
      AtRecord(records[..], list.items, nodes, cache, use, max, idx);
      if idx >= max {
        return;
      }
      var node := records[idx];
      if node == NULL {
        return;
      }
      ghost var k := ByIndex(cache, idx);
      Refresh(node, k);
      found, name := true, nodes[node].name;
    }

    /** The index of a name, giving it one if there is memory for a node (`granted`). */
    method Find(name: Bytes, granted: bool) returns (idx: int)
      requires Valid()
      modifies this, tree, list, records
      ensures Valid() && cache == Step(old(cache), max, Op.Find(name, granted))
      ensures if Touches(old(cache), Op.Find(name, granted)) == {} then idx == -1
        else cache != [] && idx == cache[|cache| - 1].idx
    {
      hide TotalOrder, Descending, Strcmp, InOrder, Plug, NamesOf, Narrowed, EmptyPlace, Chained, At, RedBlack;
      hide Step, Touches, Touch, LruCache.Enter, ByName, Coherent;
      StringOrderIsTotal();
      StepFind(cache, max, name, granted);
      Ordered(InOrder(tree.tree), list.items, records[..], nodes, cache, use);
      var found: Ptr, parent: Ptr, onLeft: bool;
      ghost var p;
      found, parent, onLeft, p := Search(tree, NamesOf(nodes), Strcmp, name);
      if found != NULL {
        idx := Hit(found, name);
      } else if granted {
        idx := Miss(name, parent, onLeft, p);
      } else {
        Missing(name, parent, onLeft, p);
        idx := -1;
      }
    }

    lemma Missing(name: Bytes, parent: Ptr, onLeft: bool, p: Path)
      requires Valid() && EmptyPlace(tree.tree, p, parent, onLeft) && Narrowed(p, NamesOf(nodes), Strcmp, name)
      ensures ByName(cache, name) == |cache|
    {
      hide Narrowed, InOrder, NamesOf, Coherent;
      Unheard(tree.tree, list.items, records[..], nodes, cache, use, p, NULL, name);
    }

    /** Touches the node of a name that is there. */
    method Hit(found: Ptr, name: Bytes) returns (idx: nat)
      requires Valid() && found in InOrder(tree.tree) && found in NamesOf(nodes) && NamesOf(nodes)[found] == name
      modifies this, list
      ensures Valid() && ByName(old(cache), name) < |old(cache)| && cache == Touch(old(cache), ByName(old(cache), name))
      ensures idx == old(cache)[ByName(old(cache), name)].idx
    {
      Located(InOrder(tree.tree), list.items, records[..], nodes, cache, use, found, name);
      hide InOrder, Chained, Coherent, NamesOf, ByName;
      idx := nodes[found].idx;
      Refresh(found, ByName(cache, name));
    }

    /** Makes a node for a name that is not there. */
    method Miss(name: Bytes, parent: Ptr, onLeft: bool, ghost p: Path) returns (idx: int)
      requires Valid() && EmptyPlace(tree.tree, p, parent, onLeft) && Narrowed(p, NamesOf(nodes), Strcmp, name)
      modifies this, tree, list, records
      ensures Valid() && ByName(old(cache), name) == |old(cache)| && (|old(cache)| < max || old(cache) != [])
      ensures cache == LruCache.Enter(old(cache), max, name)
      ensures cache != [] && idx == cache[|cache| - 1].idx
    {
      SomeFree(nodes.Keys);
      var node: Ptr :| node != NULL && node !in nodes;
      Unheard(tree.tree, list.items, records[..], nodes, cache, use, p, node, name);
      hide Narrowed, Coherent, InOrder, NamesOf, ByName, EmptyPlace, LruCache.Enter;
      idx := Enter(node, name, parent, onLeft, p);
    }

    /** Into the tree and to the end of the list. */
    method LinkNode(node: Ptr, parent: Ptr, onLeft: bool, ghost p: Path)
      requires tree.Valid() && list.Valid() && EmptyPlace(tree.tree, p, parent, onLeft)
      requires node != NULL && node !in Nodes(tree.tree) && node !in list.items
      modifies tree, list
      ensures tree.Valid() && list.Valid()
      ensures InOrder(tree.tree) == Before(p) + [node] + After(p) && list.items == old(list.items) + [node]
    {
      hide InOrder, At, RedBlack, Before, After;
      tree.Link(node, parent, onLeft, p);
      tree.InsertColor(node, p);
      list.AddTail(node);
    }

    /** Takes the oldest node out of the tree and the list, for its index. */
    method TakeOldest() returns (idx: nat)
      requires tree.Valid() && list.Valid() && list.items != []
      requires list.items[0] in nodes && list.items[0] in InOrder(tree.tree)
      modifies tree, list, this`nodes
      ensures tree.Valid() && list.Valid()
      ensures var first := old(list.items[0]);
        && idx == old(nodes)[first].idx && nodes == old(nodes) - {first}
        && InOrder(tree.tree) == Without(old(InOrder(tree.tree)), first)
        && list.items == Without(old(list.items), first)
    {
      InOrderMember(tree.tree, list.items[0]);
      hide InOrder, At, RedBlack, Without;
      var first := list.head;
      idx := nodes[first].idx;
      tree.Erase(first);
      list.Del(first);
      nodes := nodes - {first};
    }

    /** Gives a node its index, and the index its node. */
    method Record(node: Ptr, name: Bytes, idx: nat, ghost next: Cache)
      requires tree.Valid() && list.Valid() && Configured() && idx < max
      requires Coherent(InOrder(tree.tree), list.items, records[..][idx := node], nodes[node := Entry(name, idx)], next, use)
      modifies this`nodes, this`cache, records
      ensures Valid() && cache == next
    {
      ghost var r: seq<Ptr> := records[..];
      hide Coherent, InOrder, At, RedBlack, Chained;
      records[idx] := node;
      assert records[..] == r[idx := node];
      nodes := nodes[node := Entry(name, idx)];
      cache := next;
    }

    /** Links a node of a new name, taking its index from the oldest node if all are in use. */
    method Enter(node: Ptr, name: Bytes, parent: Ptr, onLeft: bool, ghost p: Path) returns (idx: int)
      requires Valid() && EmptyPlace(tree.tree, p, parent, onLeft)
      requires New?(tree.tree, nodes, p, node, name) && ByName(cache, name) == |cache|
      modifies this, tree, list, records
      ensures Valid() && (|old(cache)| < max || old(cache) != []) && cache == LruCache.Enter(old(cache), max, name)
      ensures cache != [] && idx == cache[|cache| - 1].idx
    {
      hide Coherent, InOrder, At, RedBlack, EmptyPlace, Without, Before, After, New?, LruCache.Enter, Chained, ByName;
      NewNode(tree.tree, list.items, records[..], nodes, cache, use, p, node, name);
      ghost var first, e := Entered(tree.tree, list.items, records[..], nodes, cache, use, p, node, name);
      ghost var next: Cache := LruCache.Enter(cache, max, name);
      idx := use;
      LinkNode(node, parent, onLeft, p);
      if use < max {
        use := use + 1;
      } else {
        idx := TakeOldest();
      }
      Record(node, name, idx, next);
    }

    lemma HasRoom()
      requires Valid()
      ensures 1 <= max <= Signed(Not(mask)) && Sound(cache, max)
    {
      hide InOrder, At, RedBlack, Chained;
      CoherentSound(InOrder(tree.tree), list.items, records[..], nodes, cache, use, max);
    }
  }

  lemma CarriesMoved(items: seq<Ptr>, nodes: Contents, cache: Cache, k: nat, i: nat)
    requires |items| == |cache| && k < |items| && i < |items|
    requires Carries(items, nodes, cache, if i < k then i else if i < |items| - 1 then i + 1 else k)
    ensures Carries(items[..k] + items[k + 1..] + [items[k]], nodes, Touch(cache, k), i)
  {
  }

  lemma MemberMoved(items: seq<Ptr>, k: nat, n: Ptr)
    requires k < |items| && n in items
    ensures n in items[..k] + items[k + 1..] + [items[k]]
  {
    var i :| 0 <= i < |items| && items[i] == n;
    assert n == (items[..k] + items[k + 1..] + [items[k]])[if i < k then i else if i == k then |items| - 1 else i - 1];
  }

  /** The nodes of a list without one, and then that one again, are still different. */
  lemma MovedApart(items: seq<Ptr>, k: nat)
    requires NoRepeats(items) && k < |items|
    ensures var w := items[..k] + items[k + 1..];
      Without(items, items[k]) == w && items[k] !in w && NoRepeats(w + [items[k]])
  {
    hide Without, NoRepeats;
    NoRepeatsNone<Ptr>();
    var a: seq<Ptr>, b: seq<Ptr>, x, none: seq<Ptr> := items[..k], items[k + 1..], items[k], [];
    assert items == a + [x] + b;
    NoRepeatsSplit(a, x, b);
    WithoutMiddle(a, x, b);

    NoRepeatsJoin(a + b, x, none);
    assert a + b + [x] + none == a + b + [x];
  }

  lemma Refreshed(items: seq<Ptr>, nodes: Contents, cache: Cache, k: nat)
    requires Listed(items, nodes, cache) && k < |items|
    ensures k < |cache| && items[k] !in Without(items, items[k]) && items[k] in nodes
    ensures Listed(Without(items, items[k]) + [items[k]], nodes, Touch(cache, k))
  {
    hide NoRepeats, Without;
    var w := items[..k] + items[k + 1..];
    MovedApart(items, k);
    assert Carries(items, nodes, cache, k);
    forall i | 0 <= i < |items| ensures Carries(w + [items[k]], nodes, Touch(cache, k), i) {
      CarriesMoved(items, nodes, cache, k, i);
    }
    forall n | n in nodes ensures n in w + [items[k]] {
      MemberMoved(items, k, n);
    }
  }

  // ----- what the three views together say about the cache -----

  lemma CoherentSound(s: seq<Ptr>, items: seq<Ptr>, records: seq<Ptr>, nodes: Contents, cache: Cache, use: nat, max: nat)
    requires Coherent(s, items, records, nodes, cache, use) && |records| == max
    ensures Sound(cache, max)
  {
    StringOrderIsTotal();
    hide Strcmp;
    DescendingNames(s, NamesOf(nodes), Strcmp);
    hide TotalOrder, Descending;
    forall i | 0 <= i < |cache| ensures items[i] in nodes && nodes[items[i]] == cache[i] && cache[i].idx < |cache| {
      assert Carries(items, nodes, cache, i);
    }
    forall i, j | 0 <= i < j < |cache| ensures cache[i].name != cache[j].name && cache[i].idx != cache[j].idx {
      assert items[i] != items[j];
    }
  }

  /** What the record of an index says, and where the list has it. */
  lemma AtRecord(records: seq<Ptr>, items: seq<Ptr>, nodes: Contents, cache: Cache, use: nat, max: nat, idx: nat)
    requires Listed(items, nodes, cache) && Filed(records, nodes, use) && NULL !in nodes && |cache| == use
    requires Sound(cache, max) && |records| == max
    ensures var k := ByIndex(cache, idx);
      if idx < max && records[idx] != NULL
      then k < |items| == |cache| && items[k] == records[idx] && records[idx] in nodes && nodes[records[idx]] == cache[k]
      else k == |cache|
  {
    var k := ByIndex(cache, idx);
    if idx < max && records[idx] != NULL {
      var i :| 0 <= i < |items| && items[i] == records[idx];
      assert Carries(items, nodes, cache, i);
    }
    if k < |cache| {
      assert Carries(items, nodes, cache, k);
    }
  }

  lemma Ordered(s: seq<Ptr>, items: seq<Ptr>, records: seq<Ptr>, nodes: Contents, cache: Cache, use: nat)
    requires Coherent(s, items, records, nodes, cache, use)
    ensures Descending(s, NamesOf(nodes), Strcmp)
  {
  }

  lemma Located(s: seq<Ptr>, items: seq<Ptr>, records: seq<Ptr>, nodes: Contents, cache: Cache, use: nat, found: Ptr, name: Bytes)
    requires Coherent(s, items, records, nodes, cache, use)
    requires found in s && found in NamesOf(nodes) && NamesOf(nodes)[found] == name
    ensures var k := ByName(cache, name);
      k < |items| == |cache| && items[k] == found && found in nodes && nodes[found] == cache[k]
  {
    CoherentSound(s, items, records, nodes, cache, use, |records|);
    var i :| 0 <= i < |items| && items[i] == found;
    assert Carries(items, nodes, cache, i);
    var k := ByName(cache, name);
    assert !(k < i) && !(i < k);
  }

  lemma Unheard(t: Tree, items: seq<Ptr>, records: seq<Ptr>, nodes: Contents, cache: Cache, use: nat, p: Path, node: Ptr, name: Bytes)
    requires Coherent(InOrder(t), items, records, nodes, cache, use)
    requires Plug(p, Nil) == t && Narrowed(p, NamesOf(nodes), Strcmp, name)
    ensures ByName(cache, name) == |cache|
    ensures node != NULL && node !in nodes ==> New?(t, nodes, p, node, name)
  {
    StringOrderIsTotal();
    hide TotalOrder, Descending, Strcmp, InOrder, Plug, Narrowed;
    NotFound(p, NamesOf(nodes), Strcmp, name, NULL);
    forall i | 0 <= i < |cache| ensures cache[i].name != name {
      assert Carries(items, nodes, cache, i);
    }
  }

  lemma SomeFree(keys: set<Ptr>)
    ensures exists n: Ptr :: n != NULL && n !in keys
  {
    var n := Above(keys);
    assert n !in keys;
  }

  lemma {:induction false} Above(keys: set<Ptr>) returns (n: Ptr)
    ensures n != NULL && forall k | k in keys :: k < n
  {
    n := 1;
    if keys != {} {
      var k :| k in keys;
      var rest := Above(keys - {k});
      n := if k < rest then rest else k + 1;
      assert forall j | j in keys :: j == k || j in keys - {k};
    }
  }

  /** The three outcomes of asking for a name. */
  lemma StepFind(cache: Cache, max: nat, name: Bytes, granted: bool)
    requires 1 <= max
    ensures var k, op := ByName(cache, name), Op.Find(name, granted);
      var c := Step(cache, max, op);
      if k < |cache| then Touches(cache, op) == {name} && c == Touch(cache, k) && c != [] && c[|c| - 1] == cache[k]
      else if granted then Touches(cache, op) == {name} && c == LruCache.Enter(cache, max, name) && c != []
      else Touches(cache, op) == {} && c == cache
  {
  }

  // ----- a new node in the three views -----

  /** The node is new, and the path leads to where its name belongs. */
  ghost predicate New?(t: Tree, nodes: Contents, p: Path, node: Ptr, name: Bytes) {
    var names := NamesOf(nodes);
    node != NULL && node !in nodes && Plug(p, Nil) == t && Narrowed(p, names, Strcmp, name)
  }

  lemma SearchedNew(t: Tree, nodes: Contents, p: Path, node: Ptr, name: Bytes, idx: nat)
    requires Searched(InOrder(t), nodes) && New?(t, nodes, p, node, name)
    ensures Searched(Before(p) + [node] + After(p), nodes[node := Entry(name, idx)])
  {
    StringOrderIsTotal();
    hide TotalOrder, Descending, InOrder, Before, After, Plug, Narrowed, Strcmp;
    NotFound(p, NamesOf(nodes), Strcmp, name, node);
    Filled(p, node);
    assert NamesOf(nodes[node := Entry(name, idx)]) == NamesOf(nodes)[node := name];
  }

  lemma SearchedWithout(s: seq<Ptr>, nodes: Contents, first: Ptr)
    requires Searched(s, nodes)
    ensures Searched(Without(s, first), nodes - {first})
  {
    hide Strcmp, Without, Descending;
    StringOrderIsTotal();
    WithoutExactly(s, NamesOf(nodes), first, Strcmp);
    WithoutDescending(s, first, NamesOf(nodes), Strcmp);
    FewerNames(Without(s, first), NamesOf(nodes), NamesOf(nodes - {first}), Strcmp);
  }

  lemma ListedNew(items: seq<Ptr>, nodes: Contents, cache: Cache, node: Ptr, e: Entry)
    requires Listed(items, nodes, cache) && node !in nodes
    ensures node !in items
    ensures Listed(items + [node], nodes[node := e], cache + [e])
  {
    var items', nodes', cache' := items + [node], nodes[node := e], cache + [e];
    forall i | 0 <= i < |items| ensures items[i] in nodes && items[i] != node {
      assert Carries(items, nodes, cache, i);
    }
    NoRepeatsJoin(items, node, []);
    assert items + [node] + [] == items';
    hide NoRepeats;
    forall i | 0 <= i < |items'| ensures Carries(items', nodes', cache', i) {
      assert i < |items| ==> Carries(items, nodes, cache, i);
    }
    assert items'[|items|] == node;
    forall n | n in nodes' ensures n in items' {
      assert n != node ==> n in items;
    }
  }

  lemma WithoutHead(items: seq<Ptr>)
    requires NoRepeats(items) && items != []
    ensures Without(items, items[0]) == items[1..] && NoRepeats(items[1..]) && items[0] !in items[1..]
  {
    assert items == [] + [items[0]] + items[1..];
    NoRepeatsSplit([], items[0], items[1..]);
    WithoutMiddle([], items[0], items[1..]);
    assert [] + items[1..] == items[1..];
  }

  lemma CarriesTail(items: seq<Ptr>, nodes: Contents, cache: Cache, i: nat)
    requires |items| == |cache| && i + 1 < |items| && items[0] != items[i + 1]
    requires Carries(items, nodes, cache, i + 1)
    ensures Carries(items[1..], nodes - {items[0]}, cache[1..], i)
  {
  }

  lemma ListedWithout(items: seq<Ptr>, nodes: Contents, cache: Cache)
    requires Listed(items, nodes, cache) && items != []
    ensures Listed(Without(items, items[0]), nodes - {items[0]}, cache[1..])
  {
    var first, w, nodes' := items[0], items[1..], nodes - {items[0]};
    WithoutHead(items);
    hide NoRepeats, Without;
    forall i | 0 <= i < |w| ensures Carries(w, nodes', cache[1..], i) {
      assert w[i] in w;
      CarriesTail(items, nodes, cache, i);
    }
    forall n | n in nodes' ensures n in w {
      var i :| 0 <= i < |items| && items[i] == n;
      assert w[i - 1] == n;
    }
  }

  lemma FiledNew(records: seq<Ptr>, nodes: Contents, use: nat, node: Ptr, name: Bytes)
    requires Filed(records, nodes, use) && use < |records| && node !in nodes
    ensures Filed(records[use := node], nodes[node := Entry(name, use)], use + 1)
  {
  }

  lemma FiledOver(records: seq<Ptr>, nodes: Contents, use: nat, first: Ptr, node: Ptr, name: Bytes)
    requires Filed(records, nodes, use) && first in nodes && node !in nodes
    ensures var idx := nodes[first].idx;
      idx < |records| && Filed(records[idx := node], (nodes - {first})[node := Entry(name, idx)], use)
  {
  }

  /** With an index left over, the three views agree again on the new node. */
  lemma EnteredFree(t: Tree, items: seq<Ptr>, records: seq<Ptr>, nodes: Contents, cache: Cache, use: nat,
                    p: Path, node: Ptr, name: Bytes)
    requires Coherent(InOrder(t), items, records, nodes, cache, use) && New?(t, nodes, p, node, name)
    requires use < |records|
    ensures var s, c := Before(p) + [node] + After(p), LruCache.Enter(cache, |records|, name);
      Coherent(s, items + [node], records[use := node], nodes[node := Entry(name, use)], c, use + 1)
  {
    SearchedNew(t, nodes, p, node, name, use);
    ListedNew(items, nodes, cache, node, Entry(name, use));
    FiledNew(records, nodes, use, node, name);
    hide Listed, Searched, Filed;
  }

  /** With the oldest node gone for it, they agree as well. */
  lemma EnteredOver(t: Tree, items: seq<Ptr>, records: seq<Ptr>, nodes: Contents, cache: Cache, use: nat,
                    p: Path, node: Ptr, name: Bytes)
    requires Coherent(InOrder(t), items, records, nodes, cache, use) && New?(t, nodes, p, node, name)
    requires use == |records| > 0
    ensures items != [] && items[0] in nodes && nodes[items[0]] == cache[0] && cache[0].idx < use
    ensures items[0] in items && items[0] in Before(p) + [node] + After(p)
    ensures var s, c, first := Before(p) + [node] + After(p), LruCache.Enter(cache, |records|, name), items[0];
      Coherent(Without<Ptr>(s, first), Without<Ptr>(items + [node], first), records[cache[0].idx := node],
               (nodes - {first})[node := Entry(name, cache[0].idx)], c, use)
  {
    hide Descending, Strcmp, Without, InOrder, Before, After, Narrowed, NamesOf, NoRepeats;
    assert Carries(items, nodes, cache, 0);
    var first, s := items[0], Before(p) + [node] + After(p);
    var e := Entry(name, nodes[first].idx);
    assert (nodes - {first})[node := e] == nodes[node := e] - {first};
    assert (cache + [e])[1..] == cache[1..] + [e];
    SearchedNew(t, nodes, p, node, name, e.idx);
    SearchedWithout(s, nodes[node := e], first);
    assert first in s;
    ListedNew(items, nodes, cache, node, e);
    ListedWithout(items + [node], nodes[node := e], cache + [e]);
    FiledOver(records, nodes, use, first, node, name);
    hide Listed, Searched, Filed;
  }

  /** Either way: the new entry, and the node it displaces if any. */
  lemma Entered(t: Tree, items: seq<Ptr>, records: seq<Ptr>, nodes: Contents, cache: Cache, use: nat,
                p: Path, node: Ptr, name: Bytes) returns (first: Ptr, e: Entry)
    requires Coherent(InOrder(t), items, records, nodes, cache, use) && New?(t, nodes, p, node, name) && records != []
    ensures var c := LruCache.Enter(cache, |records|, name); c != [] && c[|c| - 1] == e && e.name == name
    ensures use < |records| ==> e.idx == use && Coherent(Before(p) + [node] + After(p), items + [node],
      records[use := node], nodes[node := e], LruCache.Enter(cache, |records|, name), use + 1)
    ensures use == |records| ==> items != [] && items[0] == first && first in items && first in nodes
    ensures use == |records| ==> first in Before(p) + [node] + After(p) && e.idx == nodes[first].idx < |records|
    ensures use == |records| ==>
      Coherent(Without<Ptr>(Before(p) + [node] + After(p), first), Without<Ptr>(items + [node], first),
               records[e.idx := node], (nodes - {first})[node := e], LruCache.Enter(cache, |records|, name), use)
  {
    first, e := NULL, Entry(name, use);
    hide Before, After, InOrder, New?, Without;
    if use < |records| {
      EnteredFree(t, items, records, nodes, cache, use, p, node, name);
    } else {
      EnteredOver(t, items, records, nodes, cache, use, p, node, name);
      first, e := items[0], Entry(name, cache[0].idx);
      hide Coherent;
    }
  }

  lemma NewNode(t: Tree, items: seq<Ptr>, records: seq<Ptr>, nodes: Contents, cache: Cache, use: nat,
                p: Path, node: Ptr, name: Bytes)
    requires Coherent(InOrder(t), items, records, nodes, cache, use) && New?(t, nodes, p, node, name)
    ensures node != NULL && node !in items && node !in Nodes(t) && |cache| == |items| == use <= |records|
    ensures items != [] ==> items[0] != node
  {
    InOrderMember(t, node);
    ListedNew(items, nodes, cache, node, Entry(name, 0));
  }
}
