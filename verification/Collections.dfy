/** Small facts about numbers, sets and sequences that several modules share. */
module Collections {
  import opened ByteOrder

  function Min(a: nat, b: nat): nat {
    if a < b then a else b
  }

  lemma {:induction false} Fewer<T>(a: set<T>, b: set<T>)
    requires a <= b
    ensures |a| <= |b|
  {
    if a != {} {
      var x :| x in a;
      Fewer(a - {x}, b - {x});
    }
  }

  /** The bytes of several pieces, one after the other. */
  function Concat(pieces: seq<Bytes>): Bytes {
    if pieces == [] then [] else pieces[0] + Concat(pieces[1..])
  }

  lemma {:induction false} ConcatJoin(a: seq<Bytes>, b: seq<Bytes>)
    ensures Concat(a + b) == Concat(a) + Concat(b)
  {
    if a == [] {
      assert a + b == b;
    } else {
      assert (a + b)[1..] == a[1..] + b;
      ConcatJoin(a[1..], b);
      assert a[0] + (Concat(a[1..]) + Concat(b)) == Concat(a) + Concat(b);
    }
  }

  /** Bytes taken from the front of the first piece. */
  lemma TakeFront(pieces: seq<Bytes>, n: nat)
    requires pieces != [] && n <= |pieces[0]|
    ensures var rest := pieces[0 := pieces[0][n..]];
      pieces[0][..n] + Concat(rest) == Concat(pieces) && (rest[0] == [] ==> Concat(rest[1..]) == Concat(rest))
  {
    var rest := pieces[0 := pieces[0][n..]];
    assert rest[1..] == pieces[1..];
    assert pieces[0][..n] + pieces[0][n..] == pieces[0];
  }

  lemma Regroup(a: Bytes, b: Bytes, c: Bytes)
    ensures a + (b + c) == a + b + c
  {
  }

  ghost predicate NoRepeats<T>(s: seq<T>) {
    forall i, j :: 0 <= i < j < |s| ==> s[i] != s[j]
  }

  lemma NoRepeatsJoin<T>(a: seq<T>, x: T, b: seq<T>)
    requires NoRepeats(a) && NoRepeats(b) && x !in a && x !in b
    requires forall y | y in a :: y !in b
    ensures NoRepeats(a + [x] + b)
  {
    var s := a + [x] + b;
    forall i, j | 0 <= i < j < |s| ensures s[i] != s[j] {
      if j < |a| {
        assert s[i] == a[i] && s[j] == a[j];
      } else if i > |a| {
        assert s[i] == b[i - |a| - 1] && s[j] == b[j - |a| - 1];
      } else if i < |a| {
        assert s[i] in a;
        assert j > |a| ==> s[j] == b[j - |a| - 1] && s[j] in b;
      } else {
        assert s[j] == b[j - |a| - 1] && s[j] in b;
      }
    }
  }

  lemma NoRepeatsSplit<T>(a: seq<T>, x: T, b: seq<T>)
    requires NoRepeats(a + [x] + b)
    ensures NoRepeats(a) && NoRepeats(b) && x !in a && x !in b
    ensures forall y | y in a :: y !in b
    ensures NoRepeats(a + b)
  {
    var s := a + [x] + b;
    forall i, j | 0 <= i < j < |a| ensures a[i] != a[j] { assert s[i] != s[j]; }
    forall i, j | 0 <= i < j < |b| ensures b[i] != b[j] { assert s[|a| + 1 + i] != s[|a| + 1 + j]; }
    forall i | 0 <= i < |a| ensures a[i] != x { assert s[i] != s[|a|]; }
    forall j | 0 <= j < |b| ensures b[j] != x { assert s[|a|] != s[|a| + 1 + j]; }
    forall y | y in a ensures y !in b {
      var i :| 0 <= i < |a| && a[i] == y;
      forall j | 0 <= j < |b| ensures b[j] != y { assert s[i] != s[|a| + 1 + j]; }
    }
    forall i, j | 0 <= i < j < |a + b| ensures (a + b)[i] != (a + b)[j] {
      assert s[if i < |a| then i else i + 1] != s[if j < |a| then j else j + 1];
    }
  }

  lemma NoRepeatsNone<T>()
    ensures NoRepeats<T>([])
  {
  }
}
