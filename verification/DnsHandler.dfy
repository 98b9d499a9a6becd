/** Answering queries: the request buffer is walked and rewritten in place, the reply
    written behind a copy of its questions. */
module DnsHandler {
  import opened ByteOrder
  import opened DnsMessage
  import opened LruCache
  import opened MappedDns
  import opened Options
  import opened Words

  /** A string in memory, up to its zero byte. */
  function CString(s: Bytes, from: nat, end: nat): Bytes
    requires from <= end < |s| && s[end] == 0
    decreases end - from
  {
    if s[from] == 0 then [] else [s[from]] + CString(s, from + 1, end)
  }

  lemma {:induction false} CStringUpTo(s: Bytes, from: nat, end: nat)
    requires from <= end < |s| && s[end] == 0
    ensures CString(s, from, end) == UpToNul(s[from..end])
    decreases end - from
  {
    if from < end {
      assert s[from..end][1..] == s[from + 1..end];
      if s[from] != 0 {
        CStringUpTo(s, from + 1, end);
      }
    }
  }

  /** One label further along a name. */
  lemma NextLabel(q: Bytes, off: nat)
    requires off < |q|
    ensures q[off] == 0 ==> NameEnd(q, off) == Some(off) && Labels(q, off) == []
    ensures var next := off + 1 + q[off];
      q[off] != 0 ==> if next >= |q| then NameEnd(q, off).None?
        else NameEnd(q, off) == NameEnd(q, next) && Labels(q, off) == [q[off + 1..next]] + Labels(q, next)
  {
  }

  lemma SameBeyond(r: Bytes, q: Bytes, off: nat, from: nat, to: nat)
    requires off <= from <= to <= |r| == |q| && r[off..] == q[off..]
    ensures r[from..to] == q[from..to] && r[to..] == q[to..]
  {
    assert forall i | off <= i < |r| :: r[i] == r[off..][i - off] == q[off..][i - off] == q[i];
  }

  /** The buffers agree from an offset on. */
  ghost predicate Untouched(r: Bytes, q: Bytes, off: nat) {
    var end := |q|;
    off <= end == |r| && r[off..] == q[off..]
  }

  lemma FurtherOn(r: Bytes, q: Bytes, off: nat, on: nat)
    requires Untouched(r, q, off) && off <= on <= |q|
    ensures Untouched(r, q, on)
    ensures on < |q| ==> r[on] == q[on]
    ensures on + 1 < |q| ==> ReadU16(r, on) == ReadU16(q, on)
  {
    SameBeyond(r, q, off, on, on);
    assert on < |q| ==> r[on] == r[on..][0] == q[on];
    assert on + 1 < |q| ==> r[on + 1] == r[on..][1] == q[on + 1];
  }

  /** A name is read from its own offset on only. */
  lemma {:induction false} NameSuffix(r: Bytes, q: Bytes, off: nat)
    requires off < |r| && Untouched(r, q, off)
    ensures NameEnd(r, off) == NameEnd(q, off) && Labels(r, off) == Labels(q, off)
    decreases |q| - off
  {
    FurtherOn(r, q, off, off);
    var next := off + 1 + q[off];
    if q[off] != 0 && next < |q| {
      SameBeyond(r, q, off, off + 1, next);
      NameSuffix(r, q, next);
    }
  }

  /** The buffer with one more length byte turned into a dot. */
  lemma Dotted(r: Bytes, q: Bytes, start: nat, at: nat, next: nat, done: seq<Bytes>)
    requires start <= at < next < |r| == |q| && r[start..at] == Flat(done) && r[at..] == q[at..]
    ensures var r' := r[at := DOT];
      r'[start..next] == Flat(done + [q[at + 1..next]]) && r'[next..] == q[next..]
  {
    var r', part := r[at := DOT], q[at + 1..next];
    FlatAppend(done, part);
    assert r[at + 1..] == r[at..][1..] == q[at + 1..];
    assert part == r[at + 1..][..next - at - 1] == r[at + 1..next];
    assert r'[start..next] == r[start..at] + ([DOT] + part);
    assert r'[next..] == r[at + 1..][next - at - 1..];
  }

  /** Walks over a name, turning its length bytes into dots. */
  method ScanName(rb: array<Byte>, start: nat) returns (ok: bool, off: nat)
    requires start < rb.Length
    modifies rb
    ensures ok <==> NameEnd(old(rb[..]), start).Some?
    ensures ok ==> start <= off == NameEnd(old(rb[..]), start).value < rb.Length
    ensures ok ==> rb[..][start..off] == Flat(Labels(old(rb[..]), start)) && Untouched(rb[..], old(rb[..]), off)
  {
    hide NameEnd, Labels, Flat;
    ghost var q: Bytes := rb[..];
    ghost var done: seq<Bytes> := [];
    off := start;
    assert Labels(q, start) == done + Labels(q, off);
    FlatNone();
    while rb[off] != 0
      invariant start <= off < rb.Length && NameEnd(q, start) == NameEnd(q, off)
      invariant Labels(q, start) == done + Labels(q, off)
      invariant rb[..][start..off] == Flat(done) && rb[..][off..] == q[off..]
      decreases rb.Length - off
    {
      var poff := off;
      ghost var r: Bytes := rb[..];
      assert rb[off] == r[off..][0] == q[off];
      NextLabel(q, off);
      off := off + 1 + rb[off];
      if off >= rb.Length {
        ok := false;
        return;
      }
      Dotted(r, q, start, poff, off, done);
      rb[poff] := DOT;
      assert rb[..] == r[poff := DOT];
      ghost var part := q[poff + 1..off];
      assert done + ([part] + Labels(q, off)) == (done + [part]) + Labels(q, off);
      done := done + [part];
    }
    assert rb[off] == rb[..][off..][0] == q[off];
    NextLabel(q, off);
    assert done + [] == done;
    ok := true;
  }

  lemma FlatNone()
    ensures Flat([]) == []
  {
  }

  /** After the scan, the C string behind the first length byte is the name. */
  lemma NameRead(r: Bytes, q: Bytes, start: nat, z: nat)
    requires start <= z && z + 2 < |r| == |q| && NameEnd(q, start) == Some(z) && ReadU16(q, z + 1) == 1
    requires r[start..z] == Flat(Labels(q, start)) && Untouched(r, q, z)
    ensures var end := if z == start then z + 1 else z;
      start + 1 <= end && r[end] == 0 && CString(r, start + 1, end) == NameOf(q, start)
  {
    FurtherOn(r, q, z, z);
    FurtherOn(r, q, z, z + 1);
    NextLabel(q, start);
    if z > start {
      var labels := Labels(q, start);
      assert labels != [] by { assert |r[start..z]| > 0; FlatNone(); }
      FlatJoined(labels);
      assert r[start + 1..z] == r[start..z][1..] == Joined(labels);
      CStringUpTo(r, start + 1, z);
    }
  }

  /** What the array of offsets and the array of addresses hold. */
  ghost predicate Noted(ips: seq<Word>, ipo: seq<nat>, answers: seq<Answer>, net: Word) {
    var n := |answers|;
    n <= |ips| == |ipo| && forall j | 0 <= j < n :: ipo[j] == answers[j].at && ips[j] == Address(net, answers[j].idx)
  }

  /** How far the walk is: what is behind it, and what is left. */
  ghost predicate Walked(q: Bytes, n: nat, asked: seq<nat>, off: nat, left: nat) {
    var w := WalkFrom(q, off, left);
    WalkFrom(q, HEADER, n) == w.(asked := asked + w.asked) && off <= |q|
  }

  lemma WalkFails(q: Bytes, n: nat, asked: seq<nat>, off: nat, left: nat)
    requires Walked(q, n, asked, off, left) && left > 0
    requires off >= |q| || NameEnd(q, off).None? || NameEnd(q, off).value + 4 >= |q|
    ensures WalkFrom(q, HEADER, n) == Walk(false, off, asked)
  {
    assert asked + [] == asked;
  }

  lemma WalkUnfolds(q: Bytes, off: nat, left: nat, z: nat)
    requires left > 0 && off < |q| && NameEnd(q, off) == Some(z) && z + 4 < |q|
    ensures var rest := WalkFrom(q, z + 5, left - 1);
      WalkFrom(q, off, left) ==
        if ReadU16(q, z + 1) == 1 && ReadU16(q, z + 3) == 1 then rest.(asked := [off] + rest.asked) else rest
  {
    hide NameEnd, ReadU16;
  }

  lemma WalkNext(q: Bytes, n: nat, asked: seq<nat>, off: nat, left: nat, z: nat)
    requires Walked(q, n, asked, off, left) && left > 0 && off < |q| && NameEnd(q, off) == Some(z) && z + 4 < |q|
    ensures Walked(q, n, if ReadU16(q, z + 1) == 1 && ReadU16(q, z + 3) == 1 then asked + [off] else asked, z + 5, left - 1)
  {
    hide NameEnd, ReadU16, WalkFrom;
    WalkUnfolds(q, off, left, z);
    var rest := WalkFrom(q, z + 5, left - 1);
    assert asked + ([off] + rest.asked) == asked + [off] + rest.asked;
  }

  /** The cache and the answers so far. */
  ghost predicate Asked(c: Cache, max: nat, q: Bytes, asked: seq<nat>, granted: nat -> bool, now: Cache, answers: seq<Answer>)
    requires 1 <= max
  {
    var ops := Requests(q, asked, granted);
    now == Run(c, max, ops) && answers == Answers(c, max, asked, ops)
  }

  lemma AskedNone(c: Cache, max: nat, q: Bytes, granted: nat -> bool)
    requires 1 <= max
    ensures Asked(c, max, q, [], granted, c, [])
  {
  }

  lemma AskedMore(c: Cache, max: nat, q: Bytes, asked: seq<nat>, granted: nat -> bool, now: Cache, answers: seq<Answer>, at: nat)
    requires 1 <= max && Asked(c, max, q, asked, granted, now, answers)
    ensures var op := Op.Find(NameOf(q, at), granted(at));
      var next := Step(now, max, op);
      Asked(c, max, q, asked + [at], granted, next,
            if Touches(now, op) == {} || next == [] then answers else answers + [Answer(at, next[|next| - 1].idx)])
  {
    var ops, op := Requests(q, asked, granted), Op.Find(NameOf(q, at), granted(at));
    var ops', asked' := Requests(q, asked + [at], granted), asked + [at];
    assert ops' == ops + [op];
    var k := |asked|;
    assert ops'[..k] == ops && ops'[k] == op && asked'[..k] == asked && ops'[..k + 1] == ops';
    RunSplit(c, max, ops', k);
    assert answers + [] == answers;
  }

  /** The buffer is none of the mapper's memory. */
  ghost predicate Apart(m: Mapper, rb: array<Byte>) {
    var b: object := rb;
    b != m.records
  }

  /** Asks the cache for the name at `start`, which the scan has rewritten. */
  method Ask(m: Mapper, rb: array<Byte>, ghost q: Bytes, start: nat, off: nat, granted: bool) returns (idx: int)
    requires Apart(m, rb) && m.Valid() && start <= off && off + 2 < rb.Length == |q| && NameEnd(q, start) == Some(off) && ReadU16(q, off + 1) == 1
    requires rb[..][start..off] == Flat(Labels(q, start)) && Untouched(rb[..], q, off)
    modifies m, m.tree, m.list, m.records
    ensures rb[..] == old(rb[..])
    ensures m.Valid() && m.cache == Step(old(m.cache), m.max, Op.Find(NameOf(q, start), granted))
    ensures if Touches(old(m.cache), Op.Find(NameOf(q, start), granted)) == {} then idx == -1
      else m.cache != [] && idx == m.cache[|m.cache| - 1].idx
  {
    hide NameOf, NameEnd, Labels, Flat, Step, Touches;
    NameRead(rb[..], q, start, off);
    var name := CString(rb[..], start + 1, if off == start then off + 1 else off);
    idx := m.Find(name, granted);
  }

  /** Asks for the name of a question of type A and class IN, and notes its address. */
  method Note(m: Mapper, rb: array<Byte>, ghost q: Bytes, start: nat, off: nat, granted: nat -> bool,
              ips0: seq<Word>, ipo: seq<nat>, ipn0: nat, ghost c: Cache, ghost asked: seq<nat>, ghost answers0: seq<Answer>)
    returns (ips: seq<Word>, ipn: nat, ghost answers: seq<Answer>)
    requires Apart(m, rb) && m.Valid() && start <= off && off + 2 < rb.Length == |q| && NameEnd(q, start) == Some(off) && ReadU16(q, off + 1) == 1
    requires rb[..][start..off] == Flat(Labels(q, start)) && Untouched(rb[..], q, off)
    requires Asked(c, m.max, q, asked, granted, m.cache, answers0) && Noted(ips0, ipo, answers0, m.net)
    requires ipn0 == |answers0| < |ipo| && ipo[ipn0] == start
    modifies m, m.tree, m.list, m.records
    ensures rb[..] == old(rb[..])
    ensures m.Valid() && ipn0 <= ipn == |answers| <= ipn0 + 1 && |ips| == |ips0|
    ensures Asked(c, m.max, q, asked + [start], granted, m.cache, answers) && Noted(ips, ipo, answers, m.net)
  {
    hide NameEnd, Labels, Flat, NameOf, Step, Touches, Asked, Noted, Address, ReadU16, Untouched;
    hide Mapper.Valid;
    m.HasRoom();
    NotedMore(ips0, ipo, answers0, m.net, start);
    AskedMore(c, m.max, q, asked, granted, m.cache, answers0, start);
    ips, ipn, answers := ips0, ipn0, answers0;
    var idx := Ask(m, rb, q, start, off, granted(start));
    if idx >= 0 {
      ips := ips[ipn := Address(m.net, idx)];
      ipn := ipn + 1;
      answers := answers + [Answer(start, idx)];
    }
  }

  lemma NotedNone(ips: seq<Word>, ipo: seq<nat>, net: Word)
    requires |ips| == |ipo|
    ensures Noted(ips, ipo, [], net)
  {
  }

  lemma UntouchedAtFirst(q: Bytes, off: nat)
    requires off <= |q|
    ensures Untouched(q, q, off)
  {
  }

  lemma NotedUp(ips: seq<Word>, ipo: seq<nat>, answers: seq<Answer>, net: Word, off: nat)
    requires Noted(ips, ipo, answers, net) && |answers| < |ipo|
    ensures Noted(ips, ipo[|answers| := off], answers, net)
  {
  }

  lemma NotedMore(ips: seq<Word>, ipo: seq<nat>, answers: seq<Answer>, net: Word, at: nat)
    requires Noted(ips, ipo, answers, net) && |answers| < |ipo| && ipo[|answers|] == at
    ensures |ips| == |ipo|
    ensures forall idx: nat :: Noted(ips[|answers| := Address(net, idx)], ipo, answers + [Answer(at, idx)], net)
  {
    hide Address;
  }

  /** Behind a scanned name the buffer is still the query. */
  lemma ScannedPast(r': Bytes, r: Bytes, q: Bytes, start: nat, off: nat)
    requires Untouched(r, q, start) && Untouched(r', r, off) && start <= off && off + 4 < |q|
    ensures Untouched(r', q, off) && Untouched(r', q, off + 5)
    ensures ReadU16(r', off + 1) == ReadU16(q, off + 1) && ReadU16(r', off + 3) == ReadU16(q, off + 3)
  {
    FurtherOn(r, q, start, off);
    FurtherOn(r', q, off, off + 1);
    FurtherOn(r', q, off, off + 3);
    FurtherOn(r', q, off, off + 5);
  }

  /** The walk over the questions: each name is scanned, those of type A and class IN
      are asked for, with the offset and the address noted. */
  method AskAll(m: Mapper, rb: array<Byte>, n: nat, granted: nat -> bool)
    returns (ok: bool, off: nat, ipn: nat, ips: seq<Word>, ipo: seq<nat>, ghost answers: seq<Answer>)
    requires Apart(m, rb) && m.Valid() && HEADER <= rb.Length && n <= 32
    modifies rb, m, m.tree, m.list, m.records
    ensures m.Valid()
    ensures var q := old(rb[..]);
      var w := WalkFrom(q, HEADER, n);
      && w.ok == ok && (ok ==> w.end == off <= |q|) && ipn == |answers| <= 32
      && Asked(old(m.cache), m.max, q, w.asked, granted, m.cache, answers)
      && Noted(ips, ipo, answers, m.net)
  {
    hide WalkFrom, NameEnd, Labels, Flat, NameOf, Step, Touches, Run, Asked, Walked, Requests, Answers, Noted, Untouched, ReadU16, Mapper.Valid;
    ghost var q: Bytes, c, asked: seq<nat> := rb[..], m.cache, [];
    m.HasRoom();
    AskedNone(c, m.max, q, granted);
    WalkStart(q, n);
    UntouchedAtFirst(q, HEADER);
    ips, ipo, ipn, answers := seq(32, _ => 0), seq(32, _ => 0), 0, [];
    NotedNone(ips, ipo, m.net);
    ok, off := true, HEADER;
    for i := 0 to n
      invariant m.Valid() && HEADER <= off <= rb.Length == |q| && Untouched(rb[..], q, off)
      invariant Walked(q, n, asked, off, n - i) && ipn == |answers| <= i && |ips| == |ipo| == 32
      invariant Asked(c, m.max, q, asked, granted, m.cache, answers) && Noted(ips, ipo, answers, m.net)
    {
      NotedUp(ips, ipo, answers, m.net, off);
      ipo := ipo[ipn := off];
      if off >= rb.Length {
        WalkFails(q, n, asked, off, n - i);
        ok := false;
        return;
      }
      var start := off;
      ghost var r: Bytes := rb[..];
      NameSuffix(r, q, start);
      ok, off := ScanName(rb, start);
      if !ok {
        WalkFails(q, n, asked, start, n - i);
        return;
      }
      var z := off;
      off := z + 1;
      if off + 3 >= rb.Length {
        WalkFails(q, n, asked, start, n - i);
        ok := false;
        return;
      }
      ghost var scanned: Bytes := rb[..];
      ScannedPast(scanned, r, q, start, z);
      WalkNext(q, n, asked, start, n - i, z);
      if ReadU16(rb[..], off) == 1 && ReadU16(rb[..], off + 2) == 1 {
        ips, ipn, answers := Note(m, rb, q, start, z, granted, ips, ipo, ipn, c, asked, answers);
        asked := asked + [start];
      }
      assert rb[..] == scanned;
      off := off + 4;
    }
    WalkDone(q, n, asked, off);
  }

  lemma WalkDone(q: Bytes, n: nat, asked: seq<nat>, off: nat)
    requires Walked(q, n, asked, off, 0)
    ensures WalkFrom(q, HEADER, n) == Walk(true, off, asked)
  {
    assert asked + [] == asked;
  }

  lemma WalkStart(q: Bytes, n: nat)
    requires HEADER <= |q|
    ensures Walked(q, n, [], HEADER, n)
  {
    var w := WalkFrom(q, HEADER, n);
    assert [] + w.asked == w.asked;
  }

  // ----- the reply -----

  method WriteU16(sb: array<Byte>, at: nat, v: nat)
    requires at + 2 <= sb.Length
    modifies sb
    ensures sb[..] == old(sb[..])[..at] + U16(v) + old(sb[..])[at + 2..]
  {
    sb[at], sb[at + 1] := v / 0x100 % 0x100, v % 0x100;
  }

  method WriteU32(sb: array<Byte>, at: nat, v: Word)
    requires at + 4 <= sb.Length
    modifies sb
    ensures sb[..] == old(sb[..])[..at] + U32(v) + old(sb[..])[at + 4..]
  {
    sb[at], sb[at + 1], sb[at + 2], sb[at + 3] := v / 0x100_0000, v / 0x1_0000 % 0x100, v / 0x100 % 0x100, v % 0x100;
  }

  /** Two patches one after the other are one. */
  lemma Patched(s: Bytes, at: nat, a: Bytes, b: Bytes)
    requires at + |a| + |b| <= |s|
    ensures var t := s[..at] + a + s[at + |a|..];
      |t| == |s| && t[..at + |a|] + b + t[at + |a| + |b|..] == s[..at] + (a + b) + s[at + |a| + |b|..]
  {
  }

  /** One A record, field by field. */
  method WriteRecord(sb: array<Byte>, off: nat, at: nat, ip: Word)
    requires off + 16 <= sb.Length
    modifies sb
    ensures sb[..] == old(sb[..])[..off] + RecordOf(at, ip) + old(sb[..])[off + 16..]
  {
    hide U16, U32;
    ghost var s: Bytes := sb[..];
    ghost var a := U16(Or(0xc000, at) % 0x1_0000);
    WriteU16(sb, off, Or(0xc000, at) % 0x1_0000);
    Patched(s, off, a, U16(1));
    WriteU16(sb, off + 2, 1);
    Patched(s, off, a + U16(1), U16(1));
    WriteU16(sb, off + 4, 1);
    Patched(s, off, a + U16(1) + U16(1), U32(1));
    WriteU32(sb, off + 6, 1);
    Patched(s, off, a + U16(1) + U16(1) + U32(1), U16(4));
    WriteU16(sb, off + 10, 4);
    Patched(s, off, a + U16(1) + U16(1) + U32(1) + U16(4), U32(ip));
    WriteU32(sb, off + 12, ip);
  }

  /** Writes the records behind the questions, as long as there is room. */
  method WriteRecords(sb: array<Byte>, end: nat, ipn: nat, ips: seq<Word>, ipo: seq<nat>, ghost answers: seq<Answer>, ghost net: Word)
    returns (ok: bool, off: nat)
    requires Noted(ips, ipo, answers, net) && ipn == |answers| && end <= sb.Length
    modifies sb
    ensures ok <==> end + 16 * ipn <= sb.Length
    ensures ok ==> off == end + 16 * ipn && sb[..][..off] == old(sb[..])[..end] + Records(answers, net)
  {
    hide RecordOf, Noted, Address;
    ghost var s: Bytes := sb[..];
    ok, off := true, end;
    assert answers[..0] == [];
    for i := 0 to ipn
      invariant ok && off == end + 16 * i <= sb.Length
      invariant sb[..][..off] == s[..end] + Records(answers[..i], net)
    {
      if off + 15 >= sb.Length {
        ok := false;
        return;
      }
      NotedAt(ips, ipo, answers, net, i);
      ghost var t: Bytes := sb[..];
      WriteRecord(sb, off, ipo[i], ips[i]);
      Appended(t, s[..end], Records(answers[..i], net), off, RecordOf(ipo[i], ips[i]));
      assert answers[..i + 1][..i] == answers[..i];
      off := off + 16;
    }
    assert answers[..ipn] == answers;
  }

  lemma Appended(t: Bytes, a: Bytes, b: Bytes, off: nat, c: Bytes)
    requires off + |c| <= |t| && t[..off] == a + b
    ensures (t[..off] + c + t[off + |c|..])[..off + |c|] == a + (b + c)
  {
  }

  lemma NotedAt(ips: seq<Word>, ipo: seq<nat>, answers: seq<Answer>, net: Word, i: nat)
    requires Noted(ips, ipo, answers, net) && i < |answers|
    ensures |answers| <= |ips| == |ipo| && ipo[i] == answers[i].at && ips[i] == Address(net, answers[i].idx)
  {
  }

  /** A copy of the query with its three other counts cleared. */
  method CopyQuery(rb: array<Byte>, sb: array<Byte>)
    requires rb != sb && HEADER <= rb.Length <= sb.Length
    modifies sb
    ensures sb[..][..rb.Length] == rb[..][..6] + [0, 0, 0, 0, 0, 0] + rb[..][HEADER..]
  {
    forall i | 0 <= i < rb.Length {
      sb[i] := rb[i];
    }
    sb[8], sb[9] := 0, 0;
    sb[6], sb[7] := 0, 0;
    sb[10], sb[11] := 0, 0;
  }

  /** The flags and the answer count written over the copied header complete the reply. */
  lemma Completed(q: Bytes, s: Bytes, end: nat, answers: seq<Answer>, net: Word, off: nat)
    requires HEADER <= end <= |q| && off == end + 16 * |answers| <= |s|
    requires s[..off] == (q[..6] + [0, 0, 0, 0, 0, 0] + q[HEADER..])[..end] + Records(answers, net)
    ensures var t := s[..2] + U16(Flags(ReadU16(q, 2))) + s[4..];
      |t| == |s| && (t[..6] + U16(|answers|) + t[8..])[..off] == Reply(q, end, answers, net)
  {
    hide U16, Flags, ReadU16, Records;
    var flags, count, rest := U16(Flags(ReadU16(q, 2))), U16(|answers|), Records(answers, net);
    CopiedParts(q, s, end, off, rest);
    var h, m := s[..HEADER], s[HEADER..];
    assert s == h + m;
    PatchedFront(h, m, 2, flags);
    var h1 := h[..2] + flags + h[4..];
    PatchedFront(h1, m, 6, count);
    var h2 := h1[..6] + count + h1[8..];
    HeaderPatched(q, h, flags, count);
    assert (h2 + m)[..off] == h2 + m[..off - HEADER];
    assert h2 + (q[HEADER..end] + rest) == h2 + q[HEADER..end] + rest;
  }

  lemma CopiedParts(q: Bytes, s: Bytes, end: nat, off: nat, rest: Bytes)
    requires HEADER <= end <= |q| && off == end + |rest| <= |s|
    requires s[..off] == (q[..6] + [0, 0, 0, 0, 0, 0] + q[HEADER..])[..end] + rest
    ensures s[..HEADER] == q[..6] + [0, 0, 0, 0, 0, 0] && s[HEADER..][..off - HEADER] == q[HEADER..end] + rest
  {
    var h: Bytes := q[..6] + [0, 0, 0, 0, 0, 0];
    assert (h + q[HEADER..])[..end] == h + q[HEADER..end];
    var all := h + q[HEADER..end] + rest;
    assert s[..off] == all;
    assert s[..HEADER] == all[..HEADER] && s[HEADER..][..off - HEADER] == all[HEADER..];
  }

  /** A patch within the front part leaves the rest. */
  lemma PatchedFront(h: Bytes, m: Bytes, at: nat, p: Bytes)
    requires at + |p| <= |h|
    ensures var s := h + m; s[..at] + p + s[at + |p|..] == h[..at] + p + h[at + |p|..] + m
  {
    assert (h + m)[at + |p|..] == h[at + |p|..] + m;
  }

  lemma HeaderPatched(q: Bytes, h: Bytes, flags: Bytes, count: Bytes)
    requires |q| >= HEADER && |flags| == 2 && |count| == 2 && h == q[..6] + [0, 0, 0, 0, 0, 0]
    ensures var h1 := h[..2] + flags + h[4..];
      h1[..6] + count + h1[8..] == q[..2] + flags + q[4..6] + count + [0, 0, 0, 0]
  {
  }

  /** What handling comes to, once the questions are walked. */
  lemma Outcome(q: Bytes, room: nat, c: Cache, max: nat, net: Word, granted: nat -> bool, now: Cache, answers: seq<Answer>)
    requires 1 <= max && HEADER <= |q| <= room && ReadU16(q, 4) <= 32
    requires Asked(c, max, q, WalkFrom(q, HEADER, ReadU16(q, 4)).asked, granted, now, answers)
    ensures var w, (c', reply) := WalkFrom(q, HEADER, ReadU16(q, 4)), Handled(q, room, c, max, net, granted);
      && now == c' && HEADER <= w.end <= |q|
      && reply == if !w.ok || w.end + 16 * |answers| > room then None else Some(Reply(q, w.end, answers, net))
  {
    WalkInside(q, HEADER, ReadU16(q, 4));
  }

  lemma Refused(q: Bytes, room: nat, c: Cache, max: nat, net: Word, granted: nat -> bool)
    requires 1 <= max && (room < |q| || |q| < HEADER || ReadU16(q, 4) > 32)
    ensures Handled(q, room, c, max, net, granted) == (c, None)
  {
  }

  lemma CopiedHeader(q: Bytes, s: Bytes)
    requires HEADER <= |q| <= |s| && s[..|q|] == q[..6] + [0, 0, 0, 0, 0, 0] + q[HEADER..]
    ensures ReadU16(s, 2) == ReadU16(q, 2)
    ensures forall end | HEADER <= end <= |q| :: s[..end] == (q[..6] + [0, 0, 0, 0, 0, 0] + q[HEADER..])[..end]
  {
    assert s[2] == s[..|q|][2] && s[3] == s[..|q|][3];
    assert forall end | HEADER <= end <= |q| :: s[..end] == s[..|q|][..end];
  }

  /** Answers the query in `rb` into `sb`: the length of the reply, or -1. */
  method Handle(m: Mapper, rb: array<Byte>, sb: array<Byte>, granted: nat -> bool) returns (res: int)
    requires Apart(m, rb) && Apart(m, sb) && rb != sb && m.Valid()
    modifies rb, sb, m, m.tree, m.list, m.records
    ensures m.Valid() && 1 <= m.max
    ensures var (c, reply) := Handled(old(rb[..]), sb.Length, old(m.cache), m.max, m.net, granted);
      && m.cache == c
      && if reply.None? then res == -1 else res == |reply.value| <= sb.Length && sb[..res] == reply.value
  {
    hide Mapper.Valid, Handled, Asked, Noted, Reply, WalkFrom, ReadU16, U16, Flags, Records;
    m.HasRoom();
    ghost var q: Bytes, c := rb[..], m.cache;
    if sb.Length < rb.Length {
      Refused(q, sb.Length, c, m.max, m.net, granted);
      return -1;
    }
    if rb.Length < HEADER {
      Refused(q, sb.Length, c, m.max, m.net, granted);
      return -1;
    }
    CopyQuery(rb, sb);
    ghost var copy: Bytes := sb[..];
    CopiedHeader(q, copy);
    var qd, fl := ReadU16(rb[..], 4), ReadU16(sb[..], 2);
    if qd > 32 {
      Refused(q, sb.Length, c, m.max, m.net, granted);
      return -1;
    }
    var ok, off, ipn, ips, ipo;
    ghost var answers;
    ok, off, ipn, ips, ipo, answers := AskAll(m, rb, qd, granted);
    Outcome(q, sb.Length, c, m.max, m.net, granted, m.cache, answers);
    if !ok {
      return -1;
    }
    assert sb[..] == copy;
    ghost var end := off;
    ok, off := WriteRecords(sb, off, ipn, ips, ipo, answers, m.net);
    if !ok {
      return -1;
    }
    Completed(q, sb[..], end, answers, m.net, off);
    WriteU16(sb, 2, Flags(fl));
    WriteU16(sb, 6, ipn);
    return off;
  }
}
