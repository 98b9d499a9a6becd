/** What a reply promises: what a resolver reads in it, and what its addresses lead
    back to. */
module DnsAnswers {
  import opened ByteOrder
  import opened DnsMessage
  import opened LruCache
  import opened Options
  import opened Words

  // ----- every answered address leads back to its name -----

  lemma LastAnswer(c: Cache, max: nat, asked: seq<nat>, ops: seq<Op>)
    requires 1 <= max && |asked| == |ops|
    ensures ops == [] ==> Answers(c, max, asked, ops) == []
    ensures ops != [] ==>
      var k, after := |ops| - 1, Run(c, max, ops);
      Answers(c, max, asked, ops) == Answers(c, max, asked[..k], ops[..k]) +
        if Touches(Run(c, max, ops[..k]), ops[k]) == {} || after == [] then [] else [Answer(asked[k], after[|after| - 1].idx)]
  {
    hide Run, Touches;
  }

  lemma {:induction false} AnswerOf(c: Cache, max: nat, asked: seq<nat>, ops: seq<Op>, a: Answer) returns (i: nat)
    requires 1 <= max && |asked| == |ops| && a in Answers(c, max, asked, ops)
    ensures i < |ops| && asked[i] == a.at && Touches(Run(c, max, ops[..i]), ops[i]) != {}
    ensures var at := Run(c, max, ops[..i + 1]);
      at != [] && at[|at| - 1].idx == a.idx
  {
    hide Run, Touches, Answers;
    LastAnswer(c, max, asked, ops);
    var k := |ops| - 1;
    if a in Answers(c, max, asked[..k], ops[..k]) {
      i := AnswerOf(c, max, asked[..k], ops[..k], a);
      assert ops[..k][..i] == ops[..i] && ops[..k][..i + 1] == ops[..i + 1];
    } else {
      i := k;
      assert ops[..k + 1] == ops;
    }
  }

  /** The network leaves the host bits clear, and all indices fit into them. */
  ghost predicate Sized(net: Word, mask: Word, max: nat, bits: nat) {
    Not(mask) == Power2(bits) - 1 && And(net, Not(mask)) == 0 && 1 <= max <= Not(mask)
  }

  lemma AddressFindsIndex(net: Word, mask: Word, max: nat, bits: nat, idx: nat)
    requires Sized(net, mask, max, bits) && idx < max
    ensures And(Address(net, idx), Not(mask)) == idx && Address(net, idx) == Or(net, idx)
  {
    hide Power2, And, Or;
    HostBits(net, idx, bits);
    WordIsPower();
    OrBelow(net, idx, 32);
  }

  lemma WordIsPower()
    ensures Power2(32) == WORD
  {
    assert Power2(4) == 0x10;
    assert Power2(8) == 0x100;
    assert Power2(12) == 0x1000;
    assert Power2(16) == 0x1_0000;
    assert Power2(20) == 0x10_0000;
    assert Power2(24) == 0x100_0000;
    assert Power2(28) == 0x1000_0000;
  }

  /** In a reply to at most `max` A/IN questions, looking any answered address up gives
      the name of that answer's question, whatever other lookups come between. */
  lemma AnsweredAddresses(c: Cache, max: nat, net: Word, mask: Word, bits: nat, q: Bytes, room: nat, granted: nat -> bool,
                          a: Answer, lookups: seq<Op>)
    requires Sound(c, max) && Sized(net, mask, max, bits) && HEADER <= |q| <= room && ReadU16(q, 4) <= 32
    requires var asked := WalkFrom(q, HEADER, ReadU16(q, 4)).asked;
      |asked| <= max && a in Answers(c, max, asked, Requests(q, asked, granted))
    requires forall op | op in lookups :: op.Lookup?
    ensures var later := Run(Handled(q, room, c, max, net, granted).0, max, lookups);
      var k := ByIndex(later, And(Address(net, a.idx), Not(mask)));
      k < |later| && later[k].name == NameOf(q, a.at)
  {
    hide Handled, NameOf, Sound, WalkFrom, Requests, Answers, Run, ByIndex, Sized, And, Not, Address;
    var asked := WalkFrom(q, HEADER, ReadU16(q, 4)).asked;
    var after := Handled(q, room, c, max, net, granted).0;
    HandledCache(q, room, c, max, net, granted);
    var e := AnswerEntry(c, max, q, asked, granted, a);
    EntryKept(after, max, e, lookups);
    AddressFindsIndex(net, mask, max, bits, a.idx);
  }

  lemma HandledCache(q: Bytes, room: nat, c: Cache, max: nat, net: Word, granted: nat -> bool)
    requires 1 <= max && HEADER <= |q| <= room && ReadU16(q, 4) <= 32
    ensures Handled(q, room, c, max, net, granted).0
         == Run(c, max, Requests(q, WalkFrom(q, HEADER, ReadU16(q, 4)).asked, granted))
  {
    hide Run, Requests, Answers, WalkFrom, Reply;
  }

  /** The entry an answer is taken from, as it is after all the questions. */
  lemma AnswerEntry(c: Cache, max: nat, q: Bytes, asked: seq<nat>, granted: nat -> bool, a: Answer) returns (e: Entry)
    requires Sound(c, max) && 1 <= max && |asked| <= max && a in Answers(c, max, asked, Requests(q, asked, granted))
    ensures var after := Run(c, max, Requests(q, asked, granted));
      Sound(after, max) && e in after && e.idx == a.idx && e.name == NameOf(q, a.at)
  {
    hide NameOf, Sound, Requests, Run, Answers, Touches;
    var ops := Requests(q, asked, granted);
    var i := AnswerOf(c, max, asked, ops, a);
    RequestAt(q, asked, granted, i);
    Answered(c, max, ops, i);
    var at := Run(c, max, ops[..i + 1]);
    e := at[|at| - 1];
    RunSound(c, max, ops);
  }

  lemma RequestAt(q: Bytes, asked: seq<nat>, granted: nat -> bool, i: nat)
    requires i < |asked|
    ensures Requests(q, asked, granted)[i] == Op.Find(NameOf(q, asked[i]), granted(asked[i]))
  {
  }

  lemma EntryKept(c: Cache, max: nat, e: Entry, lookups: seq<Op>)
    requires Sound(c, max) && 1 <= max && e in c && forall op | op in lookups :: op.Lookup?
    ensures var later := Run(c, max, lookups);
      e.idx < max && ByIndex(later, e.idx) < |later| && later[ByIndex(later, e.idx)] == e
  {
    hide Sound, Run, ByIndex;
    LookupsForgetNothing(c, max, lookups);
    RunSound(c, max, lookups);
    IndexBelow(Run(c, max, lookups), max, e);
    IndexFinds(Run(c, max, lookups), max, e);
  }

  lemma IndexBelow(c: Cache, max: nat, e: Entry)
    requires Sound(c, max) && e in c
    ensures e.idx < max
  {
  }

  /** With memory for every name, the answers are for the A/IN questions, in order. */
  lemma {:induction false} OneAnswerEach(c: Cache, max: nat, asked: seq<nat>, ops: seq<Op>)
    requires 1 <= max && |asked| == |ops| && forall i | 0 <= i < |ops| :: ops[i].Find? && ops[i].granted
    ensures var r := Answers(c, max, asked, ops); |r| == |asked| && forall i | 0 <= i < |r| :: r[i].at == asked[i]
  {
    hide Run, Touches, Step, Answers;
    LastAnswer(c, max, asked, ops);
    if ops != [] {
      var k := |ops| - 1;
      OneAnswerEach(c, max, asked[..k], ops[..k]);
      RunSplit(c, max, ops, k);
      assert ops[..k + 1] == ops;
      Served(Run(c, max, ops[..k]), max, ops[k]);
    }
  }

  lemma Served(c: Cache, max: nat, op: Op)
    requires 1 <= max && op.Find? && op.granted
    ensures Touches(c, op) != {} && Step(c, max, op) != []
  {
  }

  // ----- what a resolver reads in the reply -----

  datatype Rr = Rr(pointer: nat, rtype: nat, class_: nat, ttl: nat, length: nat, address: nat)

  function ReadU32(s: Bytes, off: nat): nat
    requires off + 3 < |s|
  {
    ReadU16(s, off) * 0x1_0000 + ReadU16(s, off + 2)
  }

  /** A resource record whose name is a pointer and whose data is an address. */
  function ReadRecord(s: Bytes, off: nat): Rr
    requires off + 15 < |s|
  {
    Rr(ReadU16(s, off), ReadU16(s, off + 2), ReadU16(s, off + 4), ReadU32(s, off + 6), ReadU16(s, off + 10), ReadU32(s, off + 12))
  }

  lemma U16Reads(v: nat)
    requires v < 0x1_0000
    ensures ReadU16(U16(v), 0) == v
  {
  }

  lemma U32Reads(v: Word)
    ensures ReadU32(U32(v), 0) == v
  {
    var high, low := v / 0x1_0000, v % 0x1_0000;
    Halves(v);
    var bytes: Bytes := [high / 0x100, high % 0x100, low / 0x100, low % 0x100];
    assert U32(v) == bytes;
    assert ReadU16(bytes, 0) == high && ReadU16(bytes, 2) == low;
  }

  lemma Halves(v: Word)
    ensures v / 0x1_0000 / 0x100 == v / 0x100_0000
    ensures v / 0x100 % 0x100 == v % 0x1_0000 / 0x100 && v % 0x1_0000 % 0x100 == v % 0x100
  {
    var high, low := v / 0x1_0000, v % 0x1_0000;
    assert v / 0x100 == high * 0x100 + low / 0x100;
  }

  lemma ReadWithin(s: Bytes, a: Bytes, off: nat, i: nat)
    requires off + |a| <= |s| && s[off..off + |a|] == a
    ensures i + 1 < |a| ==> ReadU16(s, off + i) == ReadU16(a, i)
    ensures i + 3 < |a| ==> ReadU32(s, off + i) == ReadU32(a, i)
  {
    assert forall j | 0 <= j < |a| :: a[j] == s[off..off + |a|][j] == s[off + j];
  }

  lemma RecordReads(at: nat, ip: Word)
    ensures ReadRecord(RecordOf(at, ip), 0) == Rr(Or(0xc000, at) % 0x1_0000, 1, 1, 1, 4, ip)
  {
    hide U16, U32, ReadU16, ReadU32;
    var r, pointer := RecordOf(at, ip), Or(0xc000, at) % 0x1_0000;
    Fields(U16(pointer), U16(1), U16(1), U32(1), U16(4), U32(ip));
    U16Reads(pointer);
    U16Reads(1);
    U16Reads(4);
    U32Reads(1);
    U32Reads(ip);
    hide RecordOf;
    ReadWithin(r, U16(pointer), 0, 0);
    ReadWithin(r, U16(1), 2, 0);
    ReadWithin(r, U16(1), 4, 0);
    ReadWithin(r, U32(1), 6, 0);
    ReadWithin(r, U16(4), 10, 0);
    ReadWithin(r, U32(ip), 12, 0);
  }

  lemma Fields(a: Bytes, b: Bytes, c: Bytes, d: Bytes, e: Bytes, f: Bytes)
    requires |a| == |b| == |c| == |e| == 2 && |d| == |f| == 4
    ensures var r := a + b + c + d + e + f;
      r[0..2] == a && r[2..4] == b && r[4..6] == c && r[6..10] == d && r[10..12] == e && r[12..16] == f
  {
  }

  lemma {:induction false} RecordsRead(answers: seq<Answer>, net: Word, i: nat)
    requires i < |answers|
    ensures Records(answers, net)[16 * i..16 * i + 16] == RecordOf(answers[i].at, Address(net, answers[i].idx))
  {
    hide RecordOf, Address;
    var k := |answers| - 1;
    if i < k {
      RecordsRead(answers[..k], net, i);
    }
  }

  lemma RecordAt(s: Bytes, off: nat, at: nat, ip: Word)
    requires off + 16 <= |s| && s[off..off + 16] == RecordOf(at, ip)
    ensures ReadRecord(s, off) == Rr(Or(0xc000, at) % 0x1_0000, 1, 1, 1, 4, ip)
  {
    RecordReads(at, ip);
    var r := RecordOf(at, ip);
    hide ReadU16, ReadU32, RecordOf;
    ReadWithin(s, r, off, 0);
    ReadWithin(s, r, off, 2);
    ReadWithin(s, r, off, 4);
    ReadWithin(s, r, off, 6);
    ReadWithin(s, r, off, 10);
    ReadWithin(s, r, off, 12);
  }

  lemma HeaderReads(q: Bytes, r: Bytes, count: nat)
    requires |q| >= HEADER && |r| >= HEADER && r[..HEADER] == HeaderOf(q, count) && count < 0x1_0000
    ensures r[..2] == q[..2] && r[4..6] == q[4..6] && r[8..12] == [0, 0, 0, 0]
    ensures ReadU16(r, 2) == Flags(ReadU16(q, 2)) % 0x1_0000 && ReadU16(r, 6) == count
  {
    hide Flags, ReadU16, U16;
    var h, flags := HeaderOf(q, count), Flags(ReadU16(q, 2));
    HeaderParts(q[..2], U16(flags), q[4..6], U16(count), [0, 0, 0, 0]);
    hide HeaderOf;
    HeaderKept(r, h);
    U16Again(flags);
    U16Reads(count);
    ReadWithin(r, U16(flags), 2, 0);
    ReadWithin(r, U16(count), 6, 0);
  }

  lemma U16Again(v: nat)
    ensures ReadU16(U16(v), 0) == v % 0x1_0000
  {
    var w := v % 0x1_0000;
    assert v == w + 0x100 * (0x100 * (v / 0x1_0000)) && v / 0x100 == w / 0x100 + 0x100 * (v / 0x1_0000);
    assert U16(v) == U16(w);
    U16Reads(w);
  }

  lemma HeaderParts(a: Bytes, b: Bytes, c: Bytes, d: Bytes, e: Bytes)
    requires |a| == |b| == |c| == |d| == 2 && |e| == 4
    ensures var h := a + b + c + d + e;
      h[..2] == a && h[2..4] == b && h[4..6] == c && h[6..8] == d && h[8..12] == e
  {
  }

  lemma HeaderKept(r: Bytes, h: Bytes)
    requires |h| == HEADER <= |r| && r[..HEADER] == h
    ensures r[..2] == h[..2] && r[2..4] == h[2..4] && r[4..6] == h[4..6] && r[6..8] == h[6..8] && r[8..12] == h[8..12]
  {
    assert forall a, b | 0 <= a <= b <= HEADER :: r[a..b] == r[..HEADER][a..b];
  }

  lemma RecordPlace(q: Bytes, end: nat, answers: seq<Answer>, net: Word, i: nat)
    requires HEADER <= end <= |q| && i < |answers|
    ensures ReadRecord(Reply(q, end, answers, net), end + 16 * i)
         == Rr(Or(0xc000, answers[i].at) % 0x1_0000, 1, 1, 1, 4, Address(net, answers[i].idx))
  {
    hide HeaderOf, Address, RecordOf, Records, ReadRecord;
    var r, records := Reply(q, end, answers, net), Records(answers, net);
    assert r[end..] == records;
    assert r[end + 16 * i..end + 16 * i + 16] == records[16 * i..16 * i + 16];
    RecordsRead(answers, net, i);
    RecordAt(r, end + 16 * i, answers[i].at, Address(net, answers[i].idx));
  }

  /** The reply: the query's identifier and questions, its own counts, and the records
      in the order of the answers. */
  lemma ReplyReads(q: Bytes, end: nat, answers: seq<Answer>, net: Word)
    requires HEADER <= end <= |q| && |answers| < 0x1_0000
    ensures var r := Reply(q, end, answers, net);
      && r[..2] == q[..2] && r[4..6] == q[4..6] && r[HEADER..end] == q[HEADER..end]
      && ReadU16(r, 2) == Flags(ReadU16(q, 2)) % 0x1_0000 && ReadU16(r, 6) == |answers| && r[8..12] == [0, 0, 0, 0]
      && forall i | 0 <= i < |answers| ::
        ReadRecord(r, end + 16 * i) == Rr(Or(0xc000, answers[i].at) % 0x1_0000, 1, 1, 1, 4, Address(net, answers[i].idx))
  {
    hide Flags, Address, Records, ReadRecord, HeaderOf, ReadU16, Or;
    var r := Reply(q, end, answers, net);
    assert r[..HEADER] == HeaderOf(q, |answers|) && r[HEADER..end] == q[HEADER..end];
    hide Reply;
    HeaderReads(q, r, |answers|);
    forall i | 0 <= i < |answers|
      ensures ReadRecord(r, end + 16 * i) == Rr(Or(0xc000, answers[i].at) % 0x1_0000, 1, 1, 1, 4, Address(net, answers[i].idx))
    {
      RecordPlace(q, end, answers, net, i);
    }
  }

  lemma {:induction false} AskedInside(q: Bytes, off: nat, n: nat, at: nat)
    requires off <= |q| && WalkFrom(q, off, n).ok && at in WalkFrom(q, off, n).asked
    ensures off <= at < |q| && NameEnd(q, at).Some? && NameEnd(q, at).value + 5 <= WalkFrom(q, off, n).end <= |q|
    decreases n
  {
    var t := NameEnd(q, off).value + 1;
    WalkInside(q, t + 4, n - 1);
    if at in WalkFrom(q, t + 4, n - 1).asked {
      AskedInside(q, t + 4, n - 1, at);
    }
  }

  lemma SameSlice(q: Bytes, r: Bytes, off: nat, end: nat, a: nat, b: nat)
    requires off <= a <= b <= end <= |q| && end <= |r| && q[off..end] == r[off..end]
    ensures q[a..b] == r[a..b] && (a < b ==> q[a] == r[a])
  {
    forall i | off <= i < end ensures q[i] == r[i] {
      assert q[i] == q[off..end][i - off] && r[i] == r[off..end][i - off];
    }
  }

  lemma {:induction false} SameLabels(q: Bytes, r: Bytes, off: nat, end: nat)
    requires off < end <= |q| && end <= |r| && q[off..end] == r[off..end]
    requires NameEnd(q, off).Some? && NameEnd(q, off).value < end
    ensures Labels(r, off) == Labels(q, off)
    decreases end - off
  {
    SameSlice(q, r, off, end, off, off + 1);
    if q[off] != 0 {
      var next := off + 1 + q[off];
      SameSlice(q, r, off, end, next, end);
      SameSlice(q, r, off, end, off + 1, next);
      SameLabels(q, r, next, end);
    }
  }

  /** Read in the reply, the name a record points to is the name of its question. */
  lemma NamesInReply(q: Bytes, answers: seq<Answer>, net: Word, at: nat)
    requires |q| >= HEADER && WalkFrom(q, HEADER, ReadU16(q, 4)).ok
    requires at in WalkFrom(q, HEADER, ReadU16(q, 4)).asked
    ensures var end := WalkFrom(q, HEADER, ReadU16(q, 4)).end;
      HEADER <= end <= |q| && NameOf(Reply(q, end, answers, net), at) == NameOf(q, at)
  {
    hide WalkFrom;
    var end := WalkFrom(q, HEADER, ReadU16(q, 4)).end;
    AskedInside(q, HEADER, ReadU16(q, 4), at);
    var r := Reply(q, end, answers, net);
    assert r[HEADER..end] == q[HEADER..end];
    assert r[at..end] == r[HEADER..end][at - HEADER..] && q[at..end] == q[HEADER..end][at - HEADER..];
    SameLabels(q, r, at, end);
  }

  // ----- the compression pointer -----

  /** The offset a pointer's low fourteen bits give. */
  function Target(pointer: nat): nat {
    pointer % 0x4000
  }

  lemma PointerBits(at: nat)
    requires at < 0x4000
    ensures Or(0xc000, at) == 0xc000 + at
  {
    OrDisjoint(3, at, 14);
    assert 3 * Power2(14) == 0xc000;
  }

  /** Or with a number whose set bits all lie above. */
  lemma {:induction false} OrDisjoint(high: nat, low: nat, k: nat)
    requires low < Power2(k)
    ensures Or(high * Power2(k), low) == high * Power2(k) + low
  {
    if k > 0 {
      var p := Power2(k - 1);
      assert high * Power2(k) == 2 * (high * p);
      assert high * Power2(k) / 2 == high * p && high * Power2(k) % 2 == 0;
      OrDisjoint(high, low / 2, k - 1);
    }
  }

  /** The pointer leads to the question if and only if its offset fits into fourteen bits. */
  lemma PointerExact(at: nat)
    ensures Target(Or(0xc000, at) % 0x1_0000) == at <==> at < 0x4000
  {
    hide Or;
    if at < 0x4000 {
      PointerBits(at);
    } else {
      assert Target(Or(0xc000, at) % 0x1_0000) < 0x4000;
    }
  }

  /** The pointer to a question at 0x4000 leads elsewhere. */
  lemma PointerLost()
    ensures Target(Or(0xc000, 0x4000) % 0x1_0000) != 0x4000
  {
    PointerExact(0x4000);
  }

  // ----- the flags -----

  predicate Bit(x: nat, k: nat) {
    if k == 0 then x % 2 == 1 else Bit(x / 2, k - 1)
  }

  lemma {:induction false} OrBit(a: nat, b: nat, k: nat)
    ensures Bit(Or(a, b), k) <==> Bit(a, k) || Bit(b, k)
  {
    ZeroBit(k);
    if a != 0 && b != 0 && k > 0 {
      OrBit(a / 2, b / 2, k - 1);
    }
  }

  lemma {:induction false} AndBit(a: nat, b: nat, k: nat)
    ensures Bit(And(a, b), k) <==> Bit(a, k) && Bit(b, k)
  {
    ZeroBit(k);
    if a != 0 && b != 0 && k > 0 {
      AndBit(a / 2, b / 2, k - 1);
    }
  }

  lemma {:induction false} ZeroBit(k: nat)
    ensures !Bit(0, k)
  {
    if k > 0 {
      ZeroBit(k - 1);
    }
  }

  lemma {:induction false} PowerBit(j: nat, k: nat)
    ensures Bit(Power2(j), k) <==> j == k
  {
    ZeroBit(k);
    if j > 0 && k > 0 {
      PowerBit(j - 1, k - 1);
    } else if k > 0 {
      ZeroBit(k - 1);
    }
  }

  const QR: nat := 15
  const RD: nat := 8
  const RA: nat := 7

  /** QR is set, RA is set if it or RD was, the other flags are those of the query. */
  lemma FlagsMean(fl: nat, k: nat)
    ensures Bit(Flags(fl), k) <==> k == QR || (k == RA && Bit(fl, RD)) || Bit(fl, k)
  {
    var rd := And(fl, 0x100);
    OrBit(Or(fl, 0x8000), rd / 2, k);
    OrBit(fl, 0x8000, k);
    AndBit(fl, 0x100, k + 1);
    assert Power2(15) == 0x8000 && Power2(8) == 0x100;
    PowerBit(15, k);
    PowerBit(8, k + 1);
    assert Bit(rd / 2, k) == Bit(rd, k + 1);
  }

  /** RA equals RD unless the query already came with RA and without RD. */
  lemma RecursionAvailableExactly(fl: nat)
    ensures (Bit(Flags(fl), RA) <==> Bit(fl, RD)) <==> !(Bit(fl, RA) && !Bit(fl, RD))
  {
    FlagsMean(fl, RA);
  }

  lemma FlagsFit(fl: nat)
    requires fl < 0x1_0000
    ensures Flags(fl) < 0x1_0000
  {
    assert Power2(16) == 0x1_0000 by { assert Power2(8) == 0x100; }
    OrBelow(fl, 0x8000, 16);
    OrBelow(Or(fl, 0x8000), And(fl, 0x100) / 2, 16);
  }

  lemma HandledReply(q: Bytes, room: nat, c: Cache, max: nat, net: Word, granted: nat -> bool) returns (end: nat, answers: seq<Answer>)
    requires 1 <= max && Handled(q, room, c, max, net, granted).1.Some?
    ensures HEADER <= end <= |q| && |answers| <= 32
    ensures Handled(q, room, c, max, net, granted).1.value == Reply(q, end, answers, net)
  {
    hide Answers, WalkFrom, Reply, Requests;
    var w := WalkFrom(q, HEADER, ReadU16(q, 4));
    WalkInside(q, HEADER, ReadU16(q, 4));
    end, answers := w.end, Answers(c, max, w.asked, Requests(q, w.asked, granted));
  }

  /** In the reply to any query, RA equals the query's RD unless the query had RA without RD. */
  lemma RepliedRecursion(q: Bytes, room: nat, c: Cache, max: nat, net: Word, granted: nat -> bool)
    requires 1 <= max && Handled(q, room, c, max, net, granted).1.Some?
    ensures var r := Handled(q, room, c, max, net, granted).1.value;
      |q| >= HEADER && |r| >= HEADER
      && ((Bit(ReadU16(r, 2), RA) <==> Bit(ReadU16(q, 2), RD)) <==> !(Bit(ReadU16(q, 2), RA) && !Bit(ReadU16(q, 2), RD)))
  {
    hide Handled, Flags, Bit, Reply;
    var end, answers := HandledReply(q, room, c, max, net, granted);
    ReplyReads(q, end, answers, net);
    FlagsFit(ReadU16(q, 2));
    RecursionAvailableExactly(ReadU16(q, 2));
  }

  /** A query without questions, with RA and without RD, is answered with RA. */
  lemma RecursionAvailableKept(c: Cache, max: nat, net: Word, granted: nat -> bool)
    requires 1 <= max
    ensures var q: Bytes := [0, 0, 0, 0x80, 0, 0, 0, 0, 0, 0, 0, 0];
      var r := Handled(q, 12, c, max, net, granted).1;
      r.Some? && |r.value| >= HEADER && Bit(ReadU16(r.value, 2), RA) && !Bit(ReadU16(q, 2), RD)
  {
    hide Flags, Reply, Bit;
    var q: Bytes := [0, 0, 0, 0x80, 0, 0, 0, 0, 0, 0, 0, 0];
    assert ReadU16(q, 4) == 0 && ReadU16(q, 2) == 0x80;
    assert WalkFrom(q, HEADER, 0).asked == [];
    assert Power2(7) == 0x80;
    PowerBit(7, 7);
    PowerBit(7, 8);
    FlagsMean(0x80, RA);
    FlagsFit(0x80);
    ReplyReads(q, HEADER, [], net);
  }

  // ----- a name that is cut -----

  const CUT: Bytes := [0, 0, 0, 0, 0, 1, 0, 0, 0, 0, 0, 0, 3, 97, 0, 98, 0, 0, 1, 0, 1]

  /** One A/IN question, for a name of three bytes of which the second is zero: answered,
      but for the first byte alone. */
  lemma NameCut(max: nat, net: Word)
    requires 1 <= max
    ensures var (c, reply) := Handled(CUT, 37, [], max, net, _ => true);
      reply.Some? && c == [Entry([97], 0)] && Joined(Labels(CUT, HEADER)) == [97, 0, 98]
  {
    hide Reply, Answers, WalkFrom, Labels, NameOf, NameEnd, Run, Requests, ReadU16;
    CutWalked();
    HandledCache(CUT, 37, [], max, net, _ => true);
    RequestAt(CUT, [12], _ => true, 0);
    var ops := Requests(CUT, [12], _ => true);
    assert ops == [Op.Find([97], true)];
    RunOne([], max, ops[0]);
  }

  lemma CutWalked()
    ensures Labels(CUT, 12) == [[97, 0, 98]] && NameOf(CUT, 12) == [97] && WalkFrom(CUT, 12, 1) == Walk(true, 21, [12])
    ensures ReadU16(CUT, 4) == 1 && Joined([[97, 0, 98]]) == [97, 0, 98]
  {
    var q := CUT;
    assert q[13..16] == [97, 0, 98];
    assert Labels(q, 16) == [] && [[97, 0, 98]] + [] == [[97, 0, 98]];
    assert Labels(q, 12) == [q[13..16]] + Labels(q, 16);
    assert [97, 0, 98][1..] == [0, 98];
    assert NameEnd(q, 12) == NameEnd(q, 16) == Some(16);
    assert WalkFrom(q, 21, 0) == Walk(true, 21, []);
    assert ReadU16(q, 17) == 1 && ReadU16(q, 19) == 1;
  }

  // ----- one answer of many -----

  /** What a query asks of the cache. */
  function Asks(q: Bytes, granted: nat -> bool): (ops: seq<Op>)
    requires |q| >= HEADER
    ensures |ops| == |WalkFrom(q, HEADER, ReadU16(q, 4)).asked|
  {
    Requests(q, WalkFrom(q, HEADER, ReadU16(q, 4)).asked, granted)
  }

  /** Looking an address up finds this name. */
  predicate LeadsTo(c: Cache, net: Word, mask: Word, idx: nat, name: Bytes) {
    var k := ByIndex(c, And(Address(net, idx), Not(mask)));
    k < |c| && c[k].name == name
  }

  /** However many questions a query has: an address in the reply, for a name that is not
      answered again in it, leads to that name (also after any lookups) if and only if fewer
      than `max` names are answered after it. */
  lemma AnswerLeadsExactly(c: Cache, max: nat, net: Word, mask: Word, bits: nat, q: Bytes, room: nat, granted: nat -> bool,
                           i: nat, lookups: seq<Op>)
    requires Sound(c, max) && Sized(net, mask, max, bits) && HEADER <= |q| <= room && ReadU16(q, 4) <= 32
    requires i < |Asks(q, granted)| && Touches(Run(c, max, Asks(q, granted)[..i]), Asks(q, granted)[i]) != {}
    requires var ops := Asks(q, granted);
      ops[i].Find? ==> ops[i].name !in Touched(Run(c, max, ops[..i + 1]), max, ops[i + 1..])
    requires forall op | op in lookups :: op.Lookup?
    ensures var ops := Asks(q, granted);
      var at, asked := Run(c, max, ops[..i + 1]), WalkFrom(q, HEADER, ReadU16(q, 4)).asked;
      && ops[i].Find? && at != [] && at[|at| - 1].name == ops[i].name == NameOf(q, asked[i])
      && Answer(asked[i], at[|at| - 1].idx) in Answers(c, max, asked, ops)
      && (LeadsTo(Run(Handled(q, room, c, max, net, granted).0, max, lookups), net, mask, at[|at| - 1].idx, ops[i].name)
          <==> |Touched(at, max, ops[i + 1..])| < max)
  {
    hide Handled, NameOf, Sound, Run, Touched, Touches, Sized, And, Not, Address, LeadsTo, Absent, Answers, WalkFrom;
    AskIs(q, granted, i);
    SizedSome(net, mask, max, bits);
    hide Asks;
    var ops := Asks(q, granted);
    AsksHandled(q, room, c, max, net, granted);
    RunSound(c, max, ops);
    RunSound(c, max, ops[..i + 1]);
    AnsweredExactly(c, max, ops, i);
    var at := Run(c, max, ops[..i + 1]);
    AnswerIs(c, max, WalkFrom(q, HEADER, ReadU16(q, 4)).asked, ops, i);
    IndexBelow(at, max, at[|at| - 1]);
    if Absent(Run(c, max, ops), at[|at| - 1].name) {
      NotAmong(Run(c, max, ops), at[|at| - 1].name);
    }
    LeadsExactly(Run(c, max, ops), max, net, mask, bits, at[|at| - 1], lookups);
  }

  lemma SizedSome(net: Word, mask: Word, max: nat, bits: nat)
    requires Sized(net, mask, max, bits)
    ensures 1 <= max
  {
  }

  /** A question that touched the cache is answered with the newest entry of that moment. */
  lemma {:induction false} AnswerIs(c: Cache, max: nat, asked: seq<nat>, ops: seq<Op>, i: nat)
    requires 1 <= max && |asked| == |ops| && i < |ops|
    requires Touches(Run(c, max, ops[..i]), ops[i]) != {} && Run(c, max, ops[..i + 1]) != []
    ensures var at := Run(c, max, ops[..i + 1]); Answer(asked[i], at[|at| - 1].idx) in Answers(c, max, asked, ops)
  {
    hide Run, Touches, Answers;
    var k := |ops| - 1;
    LastAnswer(c, max, asked, ops);
    if i < k {
      assert ops[..k][..i] == ops[..i] && ops[..k][..i + 1] == ops[..i + 1];
      AnswerIs(c, max, asked[..k], ops[..k], i);
    } else {
      assert ops[..i + 1] == ops;
    }
  }

  lemma AskIs(q: Bytes, granted: nat -> bool, i: nat)
    requires |q| >= HEADER && i < |Asks(q, granted)|
    ensures i < |WalkFrom(q, HEADER, ReadU16(q, 4)).asked| && Asks(q, granted)[i].Find?
    ensures Asks(q, granted)[i].name == NameOf(q, WalkFrom(q, HEADER, ReadU16(q, 4)).asked[i])
  {
    hide NameOf, WalkFrom;
  }

  lemma AsksHandled(q: Bytes, room: nat, c: Cache, max: nat, net: Word, granted: nat -> bool)
    requires 1 <= max && HEADER <= |q| <= room && ReadU16(q, 4) <= 32
    ensures Handled(q, room, c, max, net, granted).0 == Run(c, max, Asks(q, granted))
  {
    hide Handled, Run, Requests, WalkFrom;
    HandledCache(q, room, c, max, net, granted);
  }

  /** An entry that is there, or whose name is nowhere: its address leads to the name just
      when it is there. */
  lemma LeadsExactly(c: Cache, max: nat, net: Word, mask: Word, bits: nat, e: Entry, lookups: seq<Op>)
    requires Sound(c, max) && Sized(net, mask, max, bits) && e.idx < max && (e in c || Absent(c, e.name))
    requires forall op | op in lookups :: op.Lookup?
    ensures LeadsTo(Run(c, max, lookups), net, mask, e.idx, e.name) <==> e in c
  {
    hide Sound, Run, And, Not, Address, Absent;
    AddressFindsIndex(net, mask, max, bits, e.idx);
    if e in c {
      hide Sized;
      EntryKept(c, max, e, lookups);
    } else {
      hide Sized;
      StillAbsent(c, max, e.name, lookups);
      NotAmong(Run(c, max, lookups), e.name);
    }
  }

  lemma NotAmong(c: Cache, name: Bytes)
    requires Absent(c, name)
    ensures forall i | 0 <= i < |c| :: c[i].name != name
  {
  }

  lemma StillAbsent(c: Cache, max: nat, name: Bytes, lookups: seq<Op>)
    requires Sound(c, max) && 1 <= max && Absent(c, name) && forall op | op in lookups :: op.Lookup?
    ensures Absent(Run(c, max, lookups), name)
  {
    hide Sound, Run;
    LookupsForgetNothing(c, max, lookups);
    var later := Run(c, max, lookups);
    assert forall j | 0 <= j < |later| :: later[j] in later;
  }
}
