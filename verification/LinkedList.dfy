/** The doubly linked list: links embedded in the members, rewired in place. */
module LinkedList {
  import opened Collections
  import opened RedBlackShape

  datatype Link = Link(next: Ptr, prev: Ptr)

  /** The member at a position, or NULL off either end. */
  function Nth(s: seq<Ptr>, i: int): Ptr {
    if 0 <= i < |s| then s[i] else NULL
  }

  ghost predicate Chained(s: seq<Ptr>, links: map<Ptr, Link>, head: Ptr, tail: Ptr) {
    var last := Nth(s, |s| - 1);
    && NoRepeats(s) && NULL !in s
    && head == Nth(s, 0) && tail == last
    && forall i | 0 <= i < |s| :: Sits(s, links, i)
  }

  /** The member at `i` is linked to its neighbours. */
  ghost predicate Sits(s: seq<Ptr>, links: map<Ptr, Link>, i: nat)
    requires i < |s|
  {
    s[i] in links && links[s[i]] == Link(Nth(s, i + 1), Nth(s, i - 1))
  }

  class List {
    var head: Ptr
    var tail: Ptr
    var links: map<Ptr, Link>
    ghost var items: seq<Ptr>

    ghost predicate Valid()
      reads this
    {
      Chained(items, links, head, tail)
    }

    constructor ()
      ensures Valid() && items == []
    {
      head, tail, links, items := NULL, NULL, map[], [];
    }

    method AddTail(node: Ptr)
      requires Valid() && node != NULL && node !in items
      modifies this
      ensures Valid() && items == old(items) + [node]
    {
      ghost var s, was := items, links;
      assert s != [] ==> Sits(s, links, |s| - 1);
      links := links[node := Link(NULL, tail)];
      if tail != NULL {
        links := links[tail := links[tail].(next := node)];
      } else {
        head := node;
      }
      tail := node;
      items := items + [node];
      forall i | 0 <= i < |items| ensures Sits(items, links, i) {
        assert i < |s| ==> Sits(s, was, i);
      }
    }

    method Del(node: Ptr)
      requires Valid() && node in items
      modifies this
      ensures Valid() && items == Without(old(items), node)
    {
      ghost var k :| 0 <= k < |items| && items[k] == node;
      ghost var s, was, first, last := items, links, head, tail;
      Links(s, links, head, tail, k);
      hide Chained, NoRepeats;
      var link := links[node];
      if link.prev != NULL {
        links := links[link.prev := links[link.prev].(next := link.next)];
      } else {
        head := link.next;
      }
      if link.next != NULL {
        links := links[link.next := links[link.next].(prev := link.prev)];
      } else {
        tail := link.prev;
      }
      items := s[..k] + s[k + 1..];
      Bypassed(s, was, first, last, k, links, head, tail);
    }
  }

  lemma Links(s: seq<Ptr>, links: map<Ptr, Link>, head: Ptr, tail: Ptr, k: nat)
    requires Chained(s, links, head, tail) && k < |s|
    ensures s[k] in links && links[s[k]] == Link(Nth(s, k + 1), Nth(s, k - 1))
    ensures k > 0 ==> s[k - 1] != NULL && s[k - 1] in links
    ensures k + 1 < |s| ==> s[k + 1] != NULL && s[k + 1] in links
    ensures 0 < k && k + 1 < |s| ==> s[k - 1] != s[k + 1]
  {
    assert Sits(s, links, k);
    assert k > 0 ==> Sits(s, links, k - 1);
    assert k + 1 < |s| ==> Sits(s, links, k + 1);
  }

  /** The links around the member at `k`, closed over it. */
  ghost predicate Closed(s: seq<Ptr>, links: map<Ptr, Link>, head: Ptr, tail: Ptr, k: nat,
                         links': map<Ptr, Link>, head': Ptr, tail': Ptr)
    requires Chained(s, links, head, tail) && k < |s|
  {
    var p, n := Nth(s, k - 1), Nth(s, k + 1);
    && (forall n' | n' in links && n' != p && n' != n :: n' in links' && links'[n'] == links[n'])
    && (if k == 0 then head' == n else head' == head && p in links && p in links' && links'[p] == links[p].(next := n))
    && (if k + 1 == |s| then tail' == p else tail' == tail && n in links && n in links' && links'[n] == links[n].(prev := p))
  }

  lemma Bypassed(s: seq<Ptr>, links: map<Ptr, Link>, head: Ptr, tail: Ptr, k: nat,
                 links': map<Ptr, Link>, head': Ptr, tail': Ptr)
    requires Chained(s, links, head, tail) && k < |s| && Closed(s, links, head, tail, k, links', head', tail')
    ensures Chained(s[..k] + s[k + 1..], links', head', tail')
    ensures s[..k] + s[k + 1..] == Without(s, s[k])
  {
    hide NoRepeats, Without, Sits, Closed;
    var w := s[..k] + s[k + 1..];
    WithoutNth(s, k);
    BypassedEnds(s, links, head, tail, k, links', head', tail');
    hide Nth;
    forall i | 0 <= i < |w| ensures Sits(w, links', i) {
      BypassedCell(s, links, head, tail, k, links', head', tail', i);
    }
  }

  lemma BypassedEnds(s: seq<Ptr>, links: map<Ptr, Link>, head: Ptr, tail: Ptr, k: nat,
                     links': map<Ptr, Link>, head': Ptr, tail': Ptr)
    requires Chained(s, links, head, tail) && k < |s| && Closed(s, links, head, tail, k, links', head', tail')
    ensures var w := s[..k] + s[k + 1..];
      NULL !in w && head' == Nth(w, 0) && tail' == Nth(w, |w| - 1)
  {
    hide NoRepeats, Sits;
    Neighbours(s, k, 0);
    Neighbours(s, k, |s| - 2);
  }

  lemma BypassedCell(s: seq<Ptr>, links: map<Ptr, Link>, head: Ptr, tail: Ptr, k: nat,
                     links': map<Ptr, Link>, head': Ptr, tail': Ptr, i: nat)
    requires Chained(s, links, head, tail) && k < |s| && Closed(s, links, head, tail, k, links', head', tail')
    requires i + 1 < |s|
    ensures Sits(s[..k] + s[k + 1..], links', i)
  {
    Neighbours(s, k, i);
    hide Nth;
    var j := if i < k then i else i + 1;
    assert Sits(s, links, j);
    NthOnce(s, j, k);
  }

  lemma NthOnce(s: seq<Ptr>, j: nat, k: nat)
    requires NoRepeats(s) && NULL !in s && j < |s| && k < |s|
    ensures s[j] == Nth(s, k - 1) <==> j == k - 1
    ensures s[j] == Nth(s, k + 1) <==> j == k + 1
    ensures k > 0 ==> Nth(s, k - 1) == s[k - 1]
    ensures k + 1 < |s| ==> Nth(s, k + 1) == s[k + 1]
  {
  }

  lemma Neighbours(s: seq<Ptr>, k: nat, i: int)
    requires k < |s|
    ensures var w, j := s[..k] + s[k + 1..], if i < k then i else i + 1;
      && Nth(w, i) == Nth(s, j)
      && Nth(w, i + 1) == (if j == k - 1 then Nth(s, k + 1) else Nth(s, j + 1))
      && Nth(w, i - 1) == (if j == k + 1 then Nth(s, k - 1) else Nth(s, j - 1))
  {
  }

  /** Taking the member at `k` out leaves the rest in order, without repeats. */
  lemma WithoutNth(s: seq<Ptr>, k: nat)
    requires NoRepeats(s) && k < |s|
    ensures var w := s[..k] + s[k + 1..];
      w == Without(s, s[k]) && NoRepeats(w) && forall i | 0 <= i < |w| :: w[i] == s[if i < k then i else i + 1]
  {
    assert s == s[..k] + [s[k]] + s[k + 1..];
    NoRepeatsSplit(s[..k], s[k], s[k + 1..]);
    WithoutMiddle(s[..k], s[k], s[k + 1..]);
  }
}
