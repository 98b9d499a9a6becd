/** What the mapped DNS promises to be: a list of names with their indices, least
    recently touched first, searched by linear scan. */
module LruCache {
  import opened ByteOrder
  import opened Collections

  datatype Entry = Entry(name: Bytes, idx: nat)

  type Cache = seq<Entry>

  /** A request for a name (with or without memory for a new entry), or for an index. */
  datatype Op = Find(name: Bytes, granted: bool) | Lookup(idx: nat)

  /** Names are distinct, and the indices are 0, 1, .. up to the number of entries. */
  ghost predicate Sound(c: Cache, max: nat) {
    && |c| <= max
    && (forall i, j | 0 <= i < j < |c| :: c[i].name != c[j].name && c[i].idx != c[j].idx)
    && (forall i | 0 <= i < |c| :: c[i].idx < |c|)
  }

  function ByName(c: Cache, name: Bytes): (k: nat)
    ensures k <= |c| && (k < |c| ==> c[k].name == name)
    ensures forall i | 0 <= i < k :: c[i].name != name
  {
    if c == [] || c[0].name == name then 0 else 1 + ByName(c[1..], name)
  }

  function ByIndex(c: Cache, idx: nat): (k: nat)
    ensures k <= |c| && (k < |c| ==> c[k].idx == idx)
    ensures forall i | 0 <= i < k :: c[i].idx != idx
  {
    if c == [] || c[0].idx == idx then 0 else 1 + ByIndex(c[1..], idx)
  }

  /** Makes the entry at `k` the most recently touched. */
  function Touch(c: Cache, k: nat): Cache
    requires k < |c|
  {
    c[..k] + c[k + 1..] + [c[k]]
  }

  /** A new name takes the next free index, or else that of the oldest entry. */
  function Enter(c: Cache, max: nat, name: Bytes): Cache
    requires |c| < max || c != []
  {
    if |c| < max then c + [Entry(name, |c|)] else c[1..] + [Entry(name, c[0].idx)]
  }

  /** An entry found by name or by index becomes the newest; a new name enters if it is
      granted memory. */
  function Step(c: Cache, max: nat, op: Op): Cache
    requires 1 <= max
  {
    match op
    case Find(name, granted) =>
      var k := ByName(c, name);
      if k < |c| then Touch(c, k) else if granted then Enter(c, max, name) else c
    case Lookup(idx) =>
      var k := ByIndex(c, idx);
      if k < |c| then Touch(c, k) else c
  }

  /** The name an operation touches, if any. */
  function Touches(c: Cache, op: Op): set<Bytes> {
    match op
    case Find(name, granted) => if ByName(c, name) < |c| || granted then {name} else {}
    case Lookup(idx) => if ByIndex(c, idx) < |c| then {c[ByIndex(c, idx)].name} else {}
  }

  function Run(c: Cache, max: nat, ops: seq<Op>): Cache
    requires 1 <= max
    decreases |ops|
  {
    if ops == [] then c else Run(Step(c, max, ops[0]), max, ops[1..])
  }

  function Touched(c: Cache, max: nat, ops: seq<Op>): set<Bytes>
    requires 1 <= max
    decreases |ops|
  {
    if ops == [] then {} else Touches(c, ops[0]) + Touched(Step(c, max, ops[0]), max, ops[1..])
  }

  /** The names touched more recently than the entry at `k`. */
  ghost function Newer(c: Cache, k: nat): set<Bytes>
    requires k < |c|
  {
    set i | k < i < |c| :: c[i].name
  }

  lemma TouchSound(c: Cache, max: nat, k: nat)
    requires Sound(c, max) && k < |c|
    ensures Sound(Touch(c, k), max)
    ensures forall e :: e in Touch(c, k) <==> e in c
  {
    var t := Touch(c, k);
    var from := (i: int) => if i < k then i else if i < |c| - 1 then i + 1 else k;
    assert forall i | 0 <= i < |t| :: 0 <= from(i) < |c| && t[i] == c[from(i)];
    forall e ensures e in t <==> e in c {
      if e in c {
        var j :| 0 <= j < |c| && c[j] == e;
        var i := if j < k then j else if j == k then |c| - 1 else j - 1;
        assert from(i) == j && t[i] == e;
      }
    }
  }

  lemma EnterSound(c: Cache, max: nat, name: Bytes)
    requires Sound(c, max) && 1 <= max && forall i | 0 <= i < |c| :: c[i].name != name
    ensures Sound(Enter(c, max, name), max)
  {
  }

  lemma StepSound(c: Cache, max: nat, op: Op)
    requires Sound(c, max) && 1 <= max
    ensures Sound(Step(c, max, op), max)
  {
    match op
    case Find(name, granted) =>
      if ByName(c, name) < |c| { TouchSound(c, max, ByName(c, name)); } else if granted { EnterSound(c, max, name); }
    case Lookup(idx) =>
      if ByIndex(c, idx) < |c| { TouchSound(c, max, ByIndex(c, idx)); }
  }

  lemma {:induction false} RunSound(c: Cache, max: nat, ops: seq<Op>)
    requires Sound(c, max) && 1 <= max
    ensures Sound(Run(c, max, ops), max)
    decreases |ops|
  {
    if ops != [] {
      StepSound(c, max, ops[0]);
      RunSound(Step(c, max, ops[0]), max, ops[1..]);
    }
  }

  /** Where an entry goes when another one is touched, and who is newer then. */
  lemma NewerAfterTouch(c: Cache, k: nat, j: nat) returns (k': nat)
    requires k < |c| && j < |c| && j != k
    ensures k' < |c| && Touch(c, j)[k'] == c[k]
    ensures Newer(Touch(c, j), k') == Newer(c, k) + {c[j].name}
  {
    var t := Touch(c, j);
    k' := if k < j then k else k - 1;
    forall n ensures n in Newer(t, k') <==> n in Newer(c, k) + {c[j].name} {
      if n in Newer(t, k') {
        var i :| k' < i < |t| && t[i].name == n;
        assert t[i] == if i < j then c[i] else if i < |c| - 1 then c[i + 1] else c[j];
      }
      if n in Newer(c, k) {
        var i :| k < i < |c| && c[i].name == n;
        assert c[i] == t[if i < j then i else if i == j then |c| - 1 else i - 1];
      }
      assert t[|c| - 1] == c[j];
    }
  }

  lemma NewerAfterEnter(c: Cache, max: nat, k: nat, name: Bytes)
    requires k < |c| && (|c| < max || 0 < k)
    ensures var t, k' := Enter(c, max, name), if |c| < max then k else k - 1;
      k' < |t| && t[k'] == c[k] && Newer(t, k') == Newer(c, k) + {name}
  {
    var t, k' := Enter(c, max, name), if |c| < max then k else k - 1;
    forall n ensures n in Newer(t, k') <==> n in Newer(c, k) + {name} {
      if n in Newer(c, k) {
        var i :| k < i < |c| && c[i].name == n;
        assert t[i + k' - k] == c[i];
      }
      if n in Newer(t, k') {
        var i :| k' < i < |t| && t[i].name == n;
        assert i < |t| - 1 ==> t[i] == c[i + k - k'];
      }
      assert t[|t| - 1].name == name;
    }
  }

  lemma {:induction false} NewerSize(c: Cache, max: nat, k: nat)
    requires Sound(c, max) && k < |c|
    ensures |Newer(c, k)| == |c| - 1 - k
    decreases |c| - k
  {
    if k + 1 < |c| {
      NewerSize(c, max, k + 1);
      NewerNames(c, k);
      NotNewer(c, max, k + 1);
    } else {
      assert Newer(c, k) == {};
    }
  }

  lemma NewerNames(c: Cache, k: nat)
    requires k + 1 < |c|
    ensures Newer(c, k) == Newer(c, k + 1) + {c[k + 1].name}
  {
  }

  lemma NotNewer(c: Cache, max: nat, k: nat)
    requires Sound(c, max) && k < |c|
    ensures c[k].name !in Newer(c, k)
  {
  }

  /** One step: the entry survives, with the touched name now newer, or is itself
      touched, or it was the oldest of a full cache and a new name came. */
  lemma StepKeeps(c: Cache, max: nat, k: nat, op: Op) returns (k': nat)
    requires Sound(c, max) && 1 <= max && k < |c|
    ensures var t, e := Step(c, max, op), c[k];
      || (e.name in Touches(c, op) && k' < |t| && t[k'] == e && Newer(t, k') == {})
      || (e.name !in Touches(c, op) && k' < |t| && t[k'] == e && Newer(t, k') == Newer(c, k) + Touches(c, op))
      || (k == 0 && |c| == max && op.Find? && Touches(c, op) == {op.name} && ByName(c, op.name) == |c|
          && Absent(t, e.name))
  {
    hide Newer, Enter, Touch, Sound, Absent;
    var j := if op.Find? then ByName(c, op.name) else ByIndex(c, op.idx);
    k' := k;
    SizeSound(c, max);
    NameAt(c, max, k, j);
    if op.Find? && op.granted && j == |c| == max && k == 0 {
      Evicted(c, max, op.name);
    } else if j == k {
      k' := |c| - 1;
      TouchNewest(c, k);
    } else if j < |c| {
      TouchNewest(c, j);
      k' := NewerAfterTouch(c, k, j);
    } else if op.Find? && op.granted && (|c| < max || 0 < k) {
      NewerAfterEnter(c, max, k, op.name);
      k' := if |c| < max then k else k - 1;
    } else {
      assert Newer(c, k) + {} == Newer(c, k);
    }
  }

  lemma NameAt(c: Cache, max: nat, k: nat, j: nat)
    requires Sound(c, max) && k < |c|
    ensures j < |c| && j != k ==> c[j].name != c[k].name
  {
  }

  lemma TouchNewest(c: Cache, k: nat)
    requires k < |c|
    ensures var t := Touch(c, k); |t| == |c| && t[|c| - 1] == c[k] && Newer(t, |c| - 1) == {}
  {
  }

  lemma Evicted(c: Cache, max: nat, name: Bytes)
    requires Sound(c, max) && 1 <= max == |c| && name != c[0].name
    ensures Absent(Enter(c, max, name), c[0].name)
  {
  }

  /** A new name meets a full cache: it and all but the oldest are `max` names. */
  lemma Crowded(c: Cache, max: nat, name: Bytes)
    requires Sound(c, max) && 1 <= max == |c| && ByName(c, name) == |c| && name != c[0].name
    ensures |Newer(c, 0) + {name}| == max && c[0].name !in Newer(c, 0) + {name}
  {
    NewerSize(c, max, 0);
    NotNewer(c, max, 0);
    assert name !in Newer(c, 0);
  }

  /** Retention: an entry stays, index and all, while fewer than `max` other names
      are newer or touched. */
  lemma {:induction false} Retained(c: Cache, max: nat, k: nat, ops: seq<Op>)
    requires Sound(c, max) && 1 <= max && k < |c|
    requires |(Newer(c, k) + Touched(c, max, ops)) - {c[k].name}| < max
    ensures c[k] in Run(c, max, ops)
    decreases |ops|
  {
    if ops != [] {
      var op, e := ops[0], c[k];
      var t := Step(c, max, op);
      var k' := StepKeeps(c, max, k, op);
      StepSound(c, max, op);
      var all := (Newer(c, k) + Touched(c, max, ops)) - {e.name};
      if k' < |t| && t[k'] == e {
        var rest := (Newer(t, k') + Touched(t, max, ops[1..])) - {e.name};
        Fewer(rest, all);
        Retained(t, max, k', ops[1..]);
      } else {
        Crowded(c, max, op.name);
        Fewer(Newer(c, k) + {op.name}, all);
        assert false;
      }
    }
  }

  ghost predicate Absent(c: Cache, name: Bytes) {
    forall i | 0 <= i < |c| :: c[i].name != name
  }

  lemma StepAway(c: Cache, max: nat, name: Bytes, op: Op)
    requires Absent(c, name) && 1 <= max && name !in Touches(c, op)
    ensures Absent(Step(c, max, op), name)
  {
  }

  lemma {:induction false} StaysAway(c: Cache, max: nat, name: Bytes, ops: seq<Op>)
    requires Sound(c, max) && 1 <= max && name !in Touched(c, max, ops)
    requires Absent(c, name)
    ensures Absent(Run(c, max, ops), name)
    decreases |ops|
  {
    if ops != [] {
      StepSound(c, max, ops[0]);
      StepAway(c, max, name, ops[0]);
      hide Absent, Sound;
      StaysAway(Step(c, max, ops[0]), max, name, ops[1..]);
    }
  }

  lemma SizeSound(c: Cache, max: nat)
    requires Sound(c, max)
    ensures |c| <= max
  {
  }

  /** Retention is exact: an entry that is not touched again is still there if and
      only if fewer than `max` names are newer or touched. */
  lemma {:induction false} RetainedExactly(c: Cache, max: nat, k: nat, ops: seq<Op>)
    requires Sound(c, max) && 1 <= max && k < |c| && c[k].name !in Touched(c, max, ops)
    ensures c[k] in Run(c, max, ops) <==> |Newer(c, k) + Touched(c, max, ops)| < max
    decreases |ops|
  {
    hide Sound, Step, Touches, Newer;
    NewerSize(c, max, k);
    NotNewer(c, max, k);
    SizeSound(c, max);
    if ops == [] {
      assert Newer(c, k) + Touched(c, max, ops) == Newer(c, k);
    } else {
      var op := ops[0];
      var t := Step(c, max, op);
      var k' := StepKeeps(c, max, k, op);
      StepSound(c, max, op);
      if k' < |t| && t[k'] == c[k] {
        RetainedExactly(t, max, k', ops[1..]);
        assert Newer(t, k') + Touched(t, max, ops[1..]) == Newer(c, k) + Touched(c, max, ops);
      } else {
        StaysAway(t, max, c[k].name, ops[1..]);
        Crowded(c, max, op.name);
        Fewer(Newer(c, k) + {op.name}, Newer(c, k) + Touched(c, max, ops));
      }
    }
  }

  // ----- a batch of names, then lookups -----

  lemma {:induction false} RunJoin(c: Cache, max: nat, a: seq<Op>, b: seq<Op>)
    requires 1 <= max
    ensures Run(c, max, a + b) == Run(Run(c, max, a), max, b)
    decreases |a|
  {
    if a == [] {
      assert a + b == b;
    } else {
      assert (a + b)[1..] == a[1..] + b;
      RunJoin(Step(c, max, a[0]), max, a[1..], b);
    }
  }

  lemma {:induction false} TouchedAtMost(c: Cache, max: nat, ops: seq<Op>)
    requires 1 <= max
    ensures |Touched(c, max, ops)| <= |ops|
    decreases |ops|
  {
    if ops != [] {
      TouchedAtMost(Step(c, max, ops[0]), max, ops[1..]);
      var a, b := Touches(c, ops[0]), Touched(Step(c, max, ops[0]), max, ops[1..]);
      Fewer(b - a, b);
      assert a + b == a + (b - a);
    }
  }

  lemma RunSplit(c: Cache, max: nat, ops: seq<Op>, i: nat)
    requires 1 <= max && i < |ops|
    ensures Run(c, max, ops[..i + 1]) == Step(Run(c, max, ops[..i]), max, ops[i])
    ensures Run(c, max, ops) == Run(Run(c, max, ops[..i + 1]), max, ops[i + 1..])
  {
    hide Run, Step;
    RunJoin(c, max, ops[..i], [ops[i]]);
    RunOne(Run(c, max, ops[..i]), max, ops[i]);
    assert ops[..i + 1] == ops[..i] + [ops[i]];
    RunJoin(c, max, ops[..i + 1], ops[i + 1..]);
    assert ops == ops[..i + 1] + ops[i + 1..];
  }

  lemma RunOne(c: Cache, max: nat, op: Op)
    requires 1 <= max
    ensures Run(c, max, [op]) == Step(c, max, op)
  {
    hide Step;
    assert [op][1..] == [];
  }

  /** A name just found is the newest, and stays through fewer than `max` requests. */
  lemma Fresh(c: Cache, max: nat, op: Op, rest: seq<Op>)
    requires Sound(c, max) && 1 <= max && op.Find? && Touches(c, op) != {} && |rest| < max
    ensures var t := Step(c, max, op);
      t != [] && t[|t| - 1].name == op.name && t[|t| - 1] in Run(t, max, rest)
  {
    var t := Step(c, max, op);
    StepSound(c, max, op);
    Newest(c, max, op);
    hide Step, Touches, Sound;
    var k := |t| - 1;
    TouchedAtMost(t, max, rest);
    assert Newer(t, k) == {};
    Fewer((Newer(t, k) + Touched(t, max, rest)) - {t[k].name}, Touched(t, max, rest));
    Retained(t, max, k, rest);
  }

  /** In a batch of at most `max` requests, every name that got an index still has it
      at the end. */
  lemma Answered(c: Cache, max: nat, ops: seq<Op>, i: nat)
    requires Sound(c, max) && 1 <= max && |ops| <= max && i < |ops| && ops[i].Find?
    requires Touches(Run(c, max, ops[..i]), ops[i]) != {}
    ensures var at := Run(c, max, ops[..i + 1]);
      at != [] && at[|at| - 1].name == ops[i].name && at[|at| - 1] in Run(c, max, ops)
  {
    RunSplit(c, max, ops, i);
    RunSound(c, max, ops[..i]);
    Fresh(Run(c, max, ops[..i]), max, ops[i], ops[i + 1..]);
  }

  /** Looking indices up forgets nothing. */
  lemma {:induction false} LookupsForgetNothing(c: Cache, max: nat, ops: seq<Op>)
    requires Sound(c, max) && 1 <= max && forall op | op in ops :: op.Lookup?
    ensures forall e :: e in Run(c, max, ops) <==> e in c
    decreases |ops|
  {
    if ops != [] {
      var k := ByIndex(c, ops[0].idx);
      if k < |c| { TouchSound(c, max, k); }
      LookupsForgetNothing(Step(c, max, ops[0]), max, ops[1..]);
    }
  }

  /** An entry is what looking its index up finds. */
  lemma IndexFinds(c: Cache, max: nat, e: Entry)
    requires Sound(c, max) && e in c
    ensures ByIndex(c, e.idx) < |c| && c[ByIndex(c, e.idx)] == e
  {
    var k :| 0 <= k < |c| && c[k] == e;
    var j := ByIndex(c, e.idx);
    assert !(j < k) && !(k < j);
  }

  // ----- one name of a batch -----

  /** The name stands at most in this entry. */
  ghost predicate Alone(c: Cache, e: Entry) {
    forall i | 0 <= i < |c| :: c[i].name == e.name ==> c[i] == e
  }

  lemma StepAlone(c: Cache, max: nat, e: Entry, op: Op)
    requires Alone(c, e) && 1 <= max && e.name !in Touches(c, op)
    ensures Alone(Step(c, max, op), e)
  {
  }

  lemma {:induction false} StaysAlone(c: Cache, max: nat, e: Entry, ops: seq<Op>)
    requires Alone(c, e) && 1 <= max && e.name !in Touched(c, max, ops)
    ensures Alone(Run(c, max, ops), e)
    decreases |ops|
  {
    if ops != [] {
      StepAlone(c, max, e, ops[0]);
      hide Alone;
      StaysAlone(Step(c, max, ops[0]), max, e, ops[1..]);
    }
  }

  /** A name that got an index, and is not touched again: it still has that index if fewer
      than `max` names are touched after it, and is gone otherwise. */
  lemma AnsweredExactly(c: Cache, max: nat, ops: seq<Op>, i: nat)
    requires Sound(c, max) && 1 <= max && i < |ops| && ops[i].Find?
    requires Touches(Run(c, max, ops[..i]), ops[i]) != {}
    requires ops[i].name !in Touched(Run(c, max, ops[..i + 1]), max, ops[i + 1..])
    ensures var at, after := Run(c, max, ops[..i + 1]), Run(c, max, ops);
      && at != [] && at[|at| - 1].name == ops[i].name
      && if |Touched(at, max, ops[i + 1..])| < max then at[|at| - 1] in after else Absent(after, ops[i].name)
  {
    hide Run, Touched, Step, Touches, Sound, Absent;
    RunSplit(c, max, ops, i);
    RunSound(c, max, ops[..i]);
    RunSound(c, max, ops[..i + 1]);
    Newest(Run(c, max, ops[..i]), max, ops[i]);
    LastRetained(Run(c, max, ops[..i + 1]), max, ops[i + 1..]);
  }

  /** The newest entry, if it is not touched. */
  lemma LastRetained(c: Cache, max: nat, ops: seq<Op>)
    requires Sound(c, max) && 1 <= max && c != [] && c[|c| - 1].name !in Touched(c, max, ops)
    ensures if |Touched(c, max, ops)| < max then c[|c| - 1] in Run(c, max, ops) else Absent(Run(c, max, ops), c[|c| - 1].name)
  {
    hide Run, Touched;
    var k := |c| - 1;
    RetainedExactly(c, max, k, ops);
    assert Newer(c, k) == {} && {} + Touched(c, max, ops) == Touched(c, max, ops);
    StaysAlone(c, max, c[k], ops);
  }

  /** A name just found is the newest. */
  lemma Newest(c: Cache, max: nat, op: Op)
    requires Sound(c, max) && 1 <= max && op.Find? && Touches(c, op) != {}
    ensures var t := Step(c, max, op); t != [] && t[|t| - 1].name == op.name
  {
  }
}
