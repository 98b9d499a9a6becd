/** The mapped DNS on the wire: how a query is walked, and what the reply says. */
module DnsMessage {
  import opened ByteOrder
  import opened LruCache
  import opened Options
  import opened Words

  const HEADER: nat := 12
  const DOT: Byte := 46

  // ----- a name in the query -----

  /** Where the name at `off` ends (at its zero byte), if that is inside the query. */
  function NameEnd(q: Bytes, off: nat): (r: Option<nat>)
    requires off < |q|
    ensures r.Some? ==> off <= r.value < |q| && q[r.value] == 0
    decreases |q| - off
  {
    var next := off + 1 + q[off];
    if q[off] == 0 then Some(off) else if next >= |q| then None else NameEnd(q, next)
  }

  function Labels(q: Bytes, off: nat): seq<Bytes>
    decreases |q| - off
  {
    if off >= |q| || q[off] == 0 || off + 1 + q[off] >= |q| then [] else
      var next := off + 1 + q[off];
      [q[off + 1..next]] + Labels(q, next)
  }

  /** Labels with a dot before each, as the walk leaves them in the query buffer. */
  function Flat(labels: seq<Bytes>): Bytes {
    if labels == [] then [] else [DOT] + labels[0] + Flat(labels[1..])
  }

  /** Labels joined by dots. */
  function Joined(labels: seq<Bytes>): Bytes {
    if labels == [] then [] else if |labels| == 1 then labels[0] else labels[0] + [DOT] + Joined(labels[1..])
  }

  function UpToNul(s: Bytes): Bytes {
    if s == [] || s[0] == 0 then [] else [s[0]] + UpToNul(s[1..])
  }

  /** The name a question asks for, as a C string sees it. */
  function NameOf(q: Bytes, off: nat): Bytes {
    UpToNul(Joined(Labels(q, off)))
  }

  lemma {:induction false} FlatJoined(labels: seq<Bytes>)
    requires labels != []
    ensures Flat(labels) == [DOT] + Joined(labels)
  {
    if |labels| > 1 {
      FlatJoined(labels[1..]);
      assert [DOT] + labels[0] + ([DOT] + Joined(labels[1..])) == [DOT] + (labels[0] + [DOT] + Joined(labels[1..]));
    } else {
      assert Flat(labels[1..]) == [];
      assert [DOT] + labels[0] + [] == [DOT] + labels[0];
    }
  }

  lemma {:induction false} FlatAppend(labels: seq<Bytes>, last: Bytes)
    ensures Flat(labels + [last]) == Flat(labels) + ([DOT] + last)
  {
    if labels == [] {
      assert Flat([last]) == [DOT] + last + Flat([]) == [DOT] + last;
      assert [] + [last] == [last] && [] + ([DOT] + last) == [DOT] + last;
    } else {
      FlatAppend(labels[1..], last);
      assert (labels + [last])[1..] == labels[1..] + [last];
      assert [DOT] + labels[0] + (Flat(labels[1..]) + ([DOT] + last)) == [DOT] + labels[0] + Flat(labels[1..]) + ([DOT] + last);
    }
  }

  lemma {:induction false} UpToNulExactly(s: Bytes)
    ensures UpToNul(s) == s <==> 0 !in s
  {
    if s != [] {
      UpToNulExactly(s[1..]);
      assert s == [s[0]] + s[1..];
      if s[0] != 0 {
        assert UpToNul(s)[1..] == UpToNul(s[1..]);
      }
    }
  }

  lemma {:induction false} ZeroInJoined(labels: seq<Bytes>)
    ensures 0 in Joined(labels) <==> exists i :: 0 <= i < |labels| && 0 in labels[i]
  {
    if |labels| > 1 {
      ZeroInJoined(labels[1..]);
      assert forall i | 0 <= i < |labels| - 1 :: labels[1..][i] == labels[i + 1];
      if i :| 0 <= i < |labels| && 0 in labels[i] {
        assert i > 0 ==> 0 in labels[1..][i - 1];
      }
    }
  }

  /** A question is asked for by its whole name if and only if no label has a zero byte. */
  lemma WholeName(q: Bytes, off: nat)
    ensures NameOf(q, off) == Joined(Labels(q, off))
       <==> forall i | 0 <= i < |Labels(q, off)| :: 0 !in Labels(q, off)[i]
  {
    UpToNulExactly(Joined(Labels(q, off)));
    ZeroInJoined(Labels(q, off));
  }

  // ----- the questions -----

  function ReadU16(s: Bytes, off: nat): (r: nat)
    requires off + 1 < |s|
    ensures r < 0x1_0000
  {
    var high: nat, low: nat := s[off], s[off + 1];
    high * 0x100 + low
  }

  /** The outcome of walking the questions: whether it got through, where it stopped,
      and the offsets of the A/IN questions met. */
  datatype Walk = Walk(ok: bool, end: nat, asked: seq<nat>)

  function WalkFrom(q: Bytes, off: nat, n: nat): Walk
    decreases n
  {
    if n == 0 then Walk(true, off, [])
    else if off >= |q| || NameEnd(q, off).None? then Walk(false, off, [])
    else
      var t := NameEnd(q, off).value + 1;
      if t + 3 >= |q| then Walk(false, off, [])
      else
        var rest := WalkFrom(q, t + 4, n - 1);
        if ReadU16(q, t) == 1 && ReadU16(q, t + 2) == 1 then rest.(asked := [off] + rest.asked) else rest
  }

  /** One request to the cache per A/IN question. */
  function Requests(q: Bytes, asked: seq<nat>, granted: nat -> bool): (ops: seq<Op>)
    ensures |ops| == |asked| && forall i | 0 <= i < |ops| :: ops[i].Find?
  {
    seq(|asked|, i requires 0 <= i < |asked| => Op.Find(NameOf(q, asked[i]), granted(asked[i])))
  }

  /** An answer: the question it is for, and the index its name got. */
  datatype Answer = Answer(at: nat, idx: nat)

  function Answers(c: Cache, max: nat, asked: seq<nat>, ops: seq<Op>): (r: seq<Answer>)
    requires 1 <= max && |asked| == |ops|
    ensures |r| <= |ops|
  {
    if ops == [] then [] else
      var k := |ops| - 1;
      var before, after := Run(c, max, ops[..k]), Run(c, max, ops);
      Answers(c, max, asked[..k], ops[..k]) +
      if Touches(before, ops[k]) == {} || after == [] then [] else [Answer(asked[k], after[|after| - 1].idx)]
  }

  // ----- the reply -----

  function U16(v: nat): (r: Bytes)
    ensures |r| == 2
  {
    [v / 0x100 % 0x100, v % 0x100]
  }

  function U32(v: Word): (r: Bytes)
    ensures |r| == 4
  {
    [v / 0x100_0000, v / 0x1_0000 % 0x100, v / 0x100 % 0x100, v % 0x100]
  }

  /** The flags of the reply: QR set, and RD carried over into RA. */
  function Flags(fl: nat): nat {
    Or(Or(fl, 0x8000), And(fl, 0x100) / 2)
  }

  /** An A record of a class IN: a pointer to the name, a time to live of one second. */
  function RecordOf(at: nat, ip: Word): (r: Bytes)
    ensures |r| == 16
  {
    U16(Or(0xc000, at) % 0x1_0000) + U16(1) + U16(1) + U32(1) + U16(4) + U32(ip)
  }

  function Address(net: Word, idx: nat): Word {
    Or(net, idx) % WORD
  }

  function Records(answers: seq<Answer>, net: Word): (r: Bytes)
    ensures |r| == 16 * |answers|
  {
    if answers == [] then [] else
      var k := |answers| - 1;
      Records(answers[..k], net) + RecordOf(answers[k].at, Address(net, answers[k].idx))
  }

  function HeaderOf(q: Bytes, count: nat): (r: Bytes)
    requires |q| >= HEADER
    ensures |r| == HEADER
  {
    q[..2] + U16(Flags(ReadU16(q, 2))) + q[4..6] + U16(count) + [0, 0, 0, 0]
  }

  function Reply(q: Bytes, end: nat, answers: seq<Answer>, net: Word): (r: Bytes)
    requires HEADER <= end <= |q|
    ensures |r| == end + 16 * |answers|
  {
    HeaderOf(q, |answers|) + q[HEADER..end] + Records(answers, net)
  }

  lemma {:induction false} WalkInside(q: Bytes, off: nat, n: nat)
    requires off <= |q|
    ensures var w := WalkFrom(q, off, n);
      off <= w.end <= |q| && |w.asked| <= n && forall a | a in w.asked :: off <= a < |q|
    decreases n
  {
    if n > 0 && off < |q| && NameEnd(q, off).Some? {
      var t := NameEnd(q, off).value + 1;
      if t + 3 < |q| {
        WalkInside(q, t + 4, n - 1);
      }
    }
  }

  /** What handling a query comes to: the requests it makes of the cache, and the
      reply unless the query is refused or the reply does not fit. */
  function Handled(q: Bytes, room: nat, c: Cache, max: nat, net: Word, granted: nat -> bool): (r: (Cache, Option<Bytes>))
    requires 1 <= max
  {
    if room < |q| || |q| < HEADER || ReadU16(q, 4) > 32 then (c, None)
    else
      var w := WalkFrom(q, HEADER, ReadU16(q, 4));
      var ops := Requests(q, w.asked, granted);
      var answers := Answers(c, max, w.asked, ops);
      WalkInside(q, HEADER, ReadU16(q, 4));
      (Run(c, max, ops), if !w.ok || w.end + 16 * |answers| > room then None else Some(Reply(q, w.end, answers, net)))
  }


  // ----- what the joined labels read like -----

  /** The parts of a text between its dots. */
  function Parts(s: Bytes): (r: seq<Bytes>)
    ensures r != []
  {
    if s == [] then [[]]
    else
      var rest := Parts(s[1..]);
      if s[0] == 46 then [[]] + rest else [[s[0]] + rest[0]] + rest[1..]
  }

  lemma {:induction false} PartsNext(a: Bytes, b: Bytes)
    requires 46 !in a
    ensures Parts(a) == [a] && Parts(a + [46] + b) == [a] + Parts(b)
  {
    if a == [] {
      assert [] + [46] + b == [46] + b && ([46] + b)[1..] == b;
    } else {
      assert (a + [46] + b)[0] == a[0] && (a + [46] + b)[1..] == a[1..] + [46] + b;
      PartsNext(a[1..], b);
      assert [a[0]] + a[1..] == a;
    }
  }

  /** Joined labels are a name in text: split at its dots, it gives the labels back, unless
      one of them has a dot itself. */
  lemma {:induction false} LabelsComeBack(labels: seq<Bytes>)
    requires labels != [] && forall i | 0 <= i < |labels| :: 46 !in labels[i]
    ensures Parts(Joined(labels)) == labels
  {
    hide Parts;
    if |labels| == 1 {
      PartsNext(labels[0], []);
      assert labels == [labels[0]];
    } else {
      PartsNext(labels[0], Joined(labels[1..]));
      LabelsComeBack(labels[1..]);
      assert [labels[0]] + labels[1..] == labels;
    }
  }
}
