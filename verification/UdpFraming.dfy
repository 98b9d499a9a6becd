/** UDP messages over a SOCKS5 connection: framed in the TCP stream, or a datagram each
    (section 7 of RFC 1928). */
module UdpFraming {
  import opened ByteOrder
  import opened Collections
  import opened Options
  import opened SocksAddress

  /** An encoded address and a payload. */
  datatype Message = Message(addr: Bytes, data: Bytes)

  const HEAD: nat := 5

  predicate Addressed(m: Message) {
    |m.addr| >= 2 && EncodedLength(m.addr[0], m.addr[1]) == Some(|m.addr|)
  }

  // ----- in the TCP stream -----

  /** Two bytes of data length, one of header length, as the fields hold them. */
  function Frame(m: Message): Bytes {
    [|m.data| / 256 % 256, |m.data| % 256, (3 + |m.addr|) % 256] + m.addr + m.data
  }

  function FrameAll(ms: seq<Message>): Bytes {
    if ms == [] then [] else Frame(ms[0]) + FrameAll(ms[1..])
  }

  datatype Unframed = Whole(m: Message, rest: Bytes) | NoHeader | BadHeader | Cut(have: nat)

  function AddrLen(head: Bytes): int
    requires |head| >= HEAD
  {
    head[2] as int - 3
  }

  function DataLen(head: Bytes): nat
    requires |head| >= HEAD
  {
    256 * (head[0] as nat) + head[1] as nat
  }

  /** What stands at the front of a stream, for a slot of so many bytes. */
  function Unframe(s: Bytes, slot: nat): Unframed {
    if |s| < HEAD then NoHeader
    else if s[2] < 5 then BadHeader
    else
      var addrlen: nat, datlen: nat := AddrLen(s), DataLen(s);
      if addrlen + datlen > slot then BadHeader
      else if |s| < 3 + addrlen + datlen then Cut(|s| - HEAD)
      else Whole(Message(s[3..3 + addrlen], s[3 + addrlen..3 + addrlen + datlen]), s[3 + addrlen + datlen..])
  }

  /** A message comes back from its frame if and only if its lengths fit their fields and it
      fits the slot. */
  lemma FrameExactly(m: Message, slot: nat, tail: Bytes)
    requires |m.addr| >= 2
    ensures Unframe(Frame(m) + tail, slot) == Whole(m, tail)
       <==> |m.addr| <= 252 && |m.data| < 0x1_0000 && |m.addr| + |m.data| <= slot
  {
    var f, a, d := Frame(m), |m.addr|, |m.data|;
    var s := f + tail;
    assert s[0] == d / 256 % 256 && s[1] == d % 256 && s[2] == (3 + a) % 256;
    if a <= 252 && d < 0x1_0000 {
      Parts([d / 256 % 256, d % 256, (3 + a) % 256], m, tail);
    }
  }

  lemma Parts(head: Bytes, m: Message, tail: Bytes)
    requires |head| == 3
    ensures var s, a, d := head + m.addr + m.data + tail, |m.addr|, |m.data|;
      s[3..3 + a] == m.addr && s[3 + a..3 + a + d] == m.data && s[3 + a + d..] == tail
  {
    var s, a := head + m.addr + m.data + tail, |m.addr|;
    assert s == head + (m.addr + (m.data + tail));
    assert s[3..] == m.addr + (m.data + tail) && s[3 + a..] == m.data + tail;
  }

  /** An address of 253 bytes makes the header length 0, which is refused; 65536 bytes of data
      are announced as none. */
  lemma FrameLost(addr: Bytes, data: Bytes, slot: nat)
    ensures |addr| == 253 ==> Unframe(Frame(Message(addr, [])), slot) == BadHeader
    ensures |addr| == 10 && |data| == 0x1_0000 && slot >= 10 ==> Unframe(Frame(Message(addr, data)), slot) == Whole(Message(addr, []), data)
  {
    if |addr| == 10 && |data| == 0x1_0000 {
      var head: Bytes := [0, 0, 13];
      assert Frame(Message(addr, data)) == head + addr + data;
      assert (head + addr + data)[3..13] == addr && (head + addr + data)[13..] == data;
    }
  }

  predicate Fits(m: Message, slot: nat) {
    Addressed(m) && |m.addr| <= 252 && |m.data| < 0x1_0000 && |m.addr| + |m.data| <= slot
  }

  ghost predicate AllFit(ms: seq<Message>, slots: seq<nat>) {
    forall i, j | 0 <= i < |ms| && 0 <= j < |slots| :: Fits(ms[i], slots[j])
  }

  lemma FirstFits(ms: seq<Message>, slots: seq<nat>)
    requires AllFit(ms, slots) && ms != [] && slots != []
    ensures Fits(ms[0], slots[0]) && AllFit(ms[1..], slots[1..])
  {
  }

  /** The returned count, the messages really read, and what is left of the stream. */
  datatype Received = Received(count: int, got: seq<Message>, rest: Bytes)

  /** Reading a stream that ends where `s` ends: one message into each slot. */
  function Receive(s: Bytes, slots: seq<nat>, sofar: seq<Message>): Received
    decreases |slots|
  {
    if slots == [] then Received(|sofar|, sofar, s) else
      match Unframe(s, slots[0])
      case Whole(m, rest) => Receive(rest, slots[1..], sofar + [m])
      case NoHeader => Received(if sofar != [] then |sofar| else |s|, sofar, [])
      case BadHeader => Received(-1, sofar, s[HEAD..])
      case Cut(have) => Received(have, sofar, [])
  }

  /** All messages come back, in order, slot by slot, however many slots there are. */
  lemma {:induction false} FramesComeBack(ms: seq<Message>, slots: seq<nat>, sofar: seq<Message>)
    requires AllFit(ms, slots)
    ensures var n := Min(|ms|, |slots|);
      Receive(FrameAll(ms), slots, sofar) == Received(|sofar| + n, sofar + ms[..n], FrameAll(ms[n..]))
    decreases |ms|
  {
    hide Unframe, Frame, AllFit;
    var n := Min(|ms|, |slots|);
    if n == 0 {
      assert sofar + ms[..0] == sofar && ms[0..] == ms;
      if ms == [] && slots != [] { NoHeaderThere([], slots[0]); }
    } else {
      FirstFits(ms, slots);
      FrameExactly(ms[0], slots[0], FrameAll(ms[1..]));
      FramesComeBack(ms[1..], slots[1..], sofar + [ms[0]]);
      assert ms[1..][n - 1..] == ms[n..];
      assert sofar + [ms[0]] + ms[1..][..n - 1] == sofar + ms[..n];
    }
  }

  /** The whole frames at the front, and what comes after them. */
  function Split(s: Bytes, slots: seq<nat>): (seq<Message>, Bytes)
    decreases |slots|
  {
    if slots == [] || !Unframe(s, slots[0]).Whole? then ([], s) else
      var u := Unframe(s, slots[0]);
      var t := Split(u.rest, slots[1..]);
      ([u.m] + t.0, t.1)
  }

  /** When the count is that of the messages read: all slots are filled, or the stream ends
      between messages, or in a header after the first message, or (by chance) just as many
      bytes into a message. Elsewhere the count is that of some bytes, or -1. */
  lemma {:induction false} CountExactly(s: Bytes, slots: seq<nat>, sofar: seq<Message>)
    ensures var (ms, rest) := Split(s, slots);
      && |ms| <= |slots| && Receive(s, slots, sofar).got == sofar + ms
      && (Receive(s, slots, sofar).count == |sofar + ms| <==>
          || |ms| == |slots| || (|rest| < HEAD && (rest == [] || sofar + ms != []))
          || Unframe(rest, slots[|ms|]) == Cut(|sofar + ms|))
    decreases |slots|
  {
    if slots != [] && Unframe(s, slots[0]).Whole? {
      var u := Unframe(s, slots[0]);
      CountExactly(u.rest, slots[1..], sofar + [u.m]);
      var (ms, rest) := Split(u.rest, slots[1..]);
      assert sofar + [u.m] + ms == sofar + ([u.m] + ms);
      hide Unframe;
    } else {
      assert sofar + [] == sofar;
    }
  }

  /** A stream that ends in the middle of a header is counted as so many messages. */
  lemma BytesCountedAsMessages(slot: nat)
    ensures Receive([0, 9, 10], [slot], []) == Received(3, [], [])
  {
  }

  // ----- a datagram each -----

  function Datagram(m: Message): Bytes {
    [0, 0, 0] + m.addr + m.data
  }

  /** Of a datagram: nothing if it is too short, an error, or a message. */
  datatype Taken = Nothing | Wrong | Took(m: Message)

  function Undatagram(s: Bytes): Taken {
    if |s| < 4 then Nothing else
      var second := if |s| > 4 then s[4] else 0;
      var addrlen := EncodedLength(s[3], second);
      if addrlen.None? || 3 + addrlen.value > |s| then Wrong
      else Took(Message(s[3..3 + addrlen.value], s[3 + addrlen.value..]))
  }

  /** The layout of section 7 of RFC 1928: two reserved bytes and a fragment number, all
      zero, then the address and the data. */
  lemma DatagramOctets(m: Message)
    ensures var d := Datagram(m);
      |d| == 3 + |m.addr| + |m.data| && d[0] == 0 && d[1] == 0 && d[2] == 0 && d[3..3 + |m.addr|] == m.addr && d[3 + |m.addr|..] == m.data
  {
  }

  /** A datagram gives its message back if and only if it was not cut to the slot. */
  lemma DatagramExactly(m: Message, slot: nat)
    requires Addressed(m)
    ensures var d := Datagram(m); Undatagram(d[..Min(|d|, slot)]) == Took(m) <==> |d| <= slot
  {
    var d := Datagram(m);
    assert d[3] == m.addr[0] && d[4] == m.addr[1];
    if |d| <= slot {
      assert d[..|d|] == d;
      assert d[3..3 + |m.addr|] == m.addr && d[3 + |m.addr|..] == m.data;
    }
  }

  /** An address of so many bytes behind the first three. */
  predicate AddressAt(s: Bytes, n: nat) {
    4 <= n <= |s| - 3 && Addressed(Message(s[3..3 + n], s[3 + n..]))
  }

  /** Any datagram: nothing up to three bytes; wrong if it ends within its address, or has
      none; else the address and all the rest. */
  lemma DatagramTaken(s: Bytes)
    ensures var t := Undatagram(s);
      && (t.Nothing? <==> |s| <= 3)
      && (t.Took? <==> |s| >= 4 && exists n :: AddressAt(s, n))
      && (t.Took? ==> Addressed(t.m) && s == s[..3] + t.m.addr + t.m.data)
  {
    if |s| >= 4 {
      forall n | AddressAt(s, n) ensures Undatagram(s).Took? {
        var a := s[3..3 + n];
        assert a[0] == s[3] && a[1] == s[4];
      }
      if Undatagram(s).Took? {
        var m := Undatagram(s).m;
        var n := |m.addr|;
        assert m.addr[0] == s[3] && m.addr[1] == s[4];
        assert m == Message(s[3..3 + n], s[3 + n..]);
        assert AddressAt(s, n);
      }
    }
  }

  // ----- the socket -----

  /** What reading one message comes to: nothing for now, the message, some bytes of a
      header, lengths that cannot be, or some bytes after the header. */
  datatype One = Again | Got(m: Message) | Header(n: nat) | Malformed | Short(n: nat)

  predicate ReadOne(r: One, s: Bytes, slot: nat, after: Bytes) {
    match Unframe(s, slot)
    case Whole(m, rest) => r == Got(m) && after == rest
    case NoHeader => r == Header(|s|) && after == []
    case BadHeader => r == Malformed && after == s[HEAD..]
    case Cut(have) => r == Short(have) && after == []
  }

  /** What the peer's bytes arrive in: an empty piece means that for now there are none. */
  class Connection {
    var pieces: seq<Bytes>
    var wire: Bytes

    ghost function Flow(): Bytes
      reads this
    {
      Concat(pieces)
    }

    constructor (pieces: seq<Bytes>)
      ensures Flow() == Concat(pieces) && wire == []
    {
      this.pieces, wire := pieces, [];
    }

    /** Up to n bytes of one piece; in blocking mode after waiting for a piece. At the end,
        none, and `again` if there are none for now. */
    method Recv(n: nat, nonblock: bool) returns (bytes: Bytes, again: bool)
      requires n > 0
      modifies this`pieces
      ensures |bytes| <= n && bytes + Flow() == old(Flow())
      ensures again ==> nonblock && bytes == []
      ensures bytes == [] && !again ==> Flow() == []
    {
      while pieces != [] && pieces[0] == []
        invariant Flow() == old(Flow())
        decreases |pieces|
      {
        assert Concat(pieces) == pieces[0] + Concat(pieces[1..]) == Concat(pieces[1..]);
        pieces := pieces[1..];
        if nonblock {
          return [], true;
        }
      }
      again := false;
      if pieces == [] {
        bytes := [];
      } else {
        bytes := pieces[0][..Min(n, |pieces[0]|)];
        TakeFront(pieces, |bytes|);
        pieces := pieces[0 := pieces[0][|bytes|..]];
        if pieces[0] == [] {
          pieces := pieces[1..];
        }
      }
    }

    /** n bytes, or fewer at the end. */
    method RecvAll(n: nat) returns (bytes: Bytes)
      modifies this`pieces
      ensures |bytes| <= n && bytes + Flow() == old(Flow()) && (|bytes| < n ==> Flow() == [])
    {
      bytes := [];
      while |bytes| < n
        invariant |bytes| <= n && bytes + Flow() == old(Flow())
        decreases n - |bytes|
      {
        var more, again := Recv(n - |bytes|, false);
        if more == [] {
          return;
        }
        assert bytes + (more + Flow()) == bytes + more + Flow();
        bytes := bytes + more;
      }
    }

    /** One message into a slot. */
    method RecvOne(slot: nat, nonblock: bool) returns (r: One)
      requires slot >= 252
      modifies this`pieces
      ensures if r.Again? then nonblock && Flow() == old(Flow()) else ReadOne(r, old(Flow()), slot, Flow())
    {
      hide Flow, ReadOne;
      var head, again := RecvHead(nonblock);
      if again {
        return Again;
      }
      if |head| != HEAD {
        NoHeaderThere(old(Flow()), slot);
        return Header(|head|);
      }
      r := RecvRest(head, slot, old(Flow()));
    }

    /** What follows a header. */
    method RecvRest(head: Bytes, slot: nat, ghost s: Bytes) returns (r: One)
      requires slot >= 252 && |head| == HEAD && s == head + Flow()
      modifies this`pieces
      ensures !r.Again? && ReadOne(r, s, slot, Flow())
    {
      hide Flow, ReadOne;
      var bad, addrlen, datlen := HeaderOf(head, slot);
      if bad {
        BadHeaderThere(s, head, Flow(), slot);
        return Malformed;
      }
      var body := RecvAll(addrlen - 2 + datlen);
      BodyThere(s, head, body, Flow(), slot, addrlen, datlen);
      r := if |body| != addrlen - 2 + datlen then Short(|body|)
        else Got(Message(head[3..5] + body[..addrlen - 2], body[addrlen - 2..]));
    }

    /** A header: after its first bytes, the rest is waited for. */
    method RecvHead(nonblock: bool) returns (head: Bytes, again: bool)
      modifies this`pieces
      ensures again ==> nonblock && Flow() == old(Flow())
      ensures !again ==> |head| <= HEAD && head + Flow() == old(Flow()) && (|head| < HEAD ==> Flow() == [] && head == old(Flow()))
    {
      hide Flow;
      head, again := Recv(HEAD, nonblock);
      if 0 < |head| < HEAD {
        var more := RecvAll(HEAD - |head|);
        Regroup(head, more, Flow());
        head := head + more;
      }
      assert head + [] == head && ([] + Flow() == Flow());
    }

    /** One message into each slot, as long as there are any: what comes of it is what the
        peer's bytes say, however they are cut into pieces. */
    method RecvMmsgTcp(slots: seq<nat>, nonblock: bool) returns (res: int, got: seq<Message>, ghost used: nat)
      requires forall slot | slot in slots :: slot >= 252
      modifies this`pieces
      ensures used <= |slots| && (!nonblock ==> used == |slots|)
      ensures used < |slots| && used == 0 ==> res == -1 && got == [] && Flow() == old(Flow())
      ensures used == |slots| || used > 0 ==> Received(res, got, Flow()) == Receive(old(Flow()), slots[..used], [])
    {
      hide Unframe, Concat;
      got := [];
      used := |slots|;
      assert slots[..used] == slots && slots[0..] == slots;
      for i := 0 to |slots|
        invariant |got| == i && Receive(Flow(), slots[i..], got) == Receive(old(Flow()), slots, [])
        invariant used == |slots| && Receive(old(Flow()), slots[..i], []) == Received(i, got, Flow())
      {
        ghost var s: Bytes := Flow();
        var slot := slots[i];
        assert slot in slots && slots[i..][0] == slot && slots[i..][1..] == slots[i + 1..];
        var one := RecvOne(slot, nonblock);
        match one
        case Again =>
          used := i;
          return if i > 0 then i else -1, got, used;
        case Header(n) =>
          return if i > 0 then i else n, got, used;
        case Malformed =>
          return -1, got, used;
        case Short(n) =>
          return n, got, used;
        case Got(m) =>
          ReceiveOneMore(old(Flow()), slots[..i], [], s, got, slot, m, Flow());
          assert slots[..i] + [slot] == slots[..i + 1];
          got := got + [m];
      }
      res := |got|;
      assert slots[|slots|..] == [];
    }
  }

  /** The lengths in a header, unless they are too small or too large. */
  method HeaderOf(head: Bytes, slot: nat) returns (bad: bool, addrlen: nat, datlen: nat)
    requires |head| == HEAD && slot >= 252
    ensures bad <==> head[2] < 5 || AddrLen(head) + DataLen(head) > slot
    ensures !bad ==> addrlen == AddrLen(head) >= 2 && datlen == DataLen(head)
  {
    if head[2] < 5 {
      return true, 0, 0;
    }
    addrlen, datlen := AddrLen(head), DataLen(head);
    bad := datlen > slot - addrlen;
  }

  lemma NoHeaderThere(s: Bytes, slot: nat)
    requires |s| < HEAD
    ensures Unframe(s, slot) == NoHeader && ReadOne(Header(|s|), s, slot, [])
  {
  }

  lemma BadHeaderThere(s: Bytes, head: Bytes, rest: Bytes, slot: nat)
    requires s == head + rest && |head| == HEAD && (head[2] < 5 || AddrLen(head) + DataLen(head) > slot)
    ensures ReadOne(Malformed, s, slot, rest)
  {
  }

  lemma BodyThere(s: Bytes, head: Bytes, body: Bytes, rest: Bytes, slot: nat, addrlen: nat, datlen: nat)
    requires |head| == HEAD && s == head + (body + rest) && head[2] >= 5
    requires addrlen == AddrLen(head) && datlen == DataLen(head) && addrlen + datlen <= slot
    requires |body| <= addrlen - 2 + datlen && (|body| < addrlen - 2 + datlen ==> rest == [])
    ensures |body| < addrlen - 2 + datlen ==> ReadOne(Short(|body|), s, slot, rest)
    ensures |body| == addrlen - 2 + datlen ==>
      ReadOne(Got(Message(head[3..5] + body[..addrlen - 2], body[addrlen - 2..])), s, slot, rest)
  {
    assert s[0] == head[0] && s[1] == head[1] && s[2] == head[2];
    if |body| == addrlen - 2 + datlen {
      BodySlices(s, head, body, rest, addrlen - 2);
    }
  }

  lemma BodySlices(s: Bytes, head: Bytes, body: Bytes, rest: Bytes, a: nat)
    requires |head| == HEAD && s == head + (body + rest) && a <= |body|
    ensures s[3..5 + a] == head[3..5] + body[..a] && s[5 + a..5 + |body|] == body[a..] && s[5 + |body|..] == rest
  {
    var t := body + rest;
    assert s[3..5 + a] == head[3..] + t[..a] && s[5 + a..5 + |body|] == t[a..|body|] && s[5 + |body|..] == t[|body|..];
  }

  /** One slot more, after as many messages as there were slots. */
  lemma {:induction false} ReceiveOneMore(s: Bytes, slots: seq<nat>, sofar: seq<Message>, rest: Bytes, got: seq<Message>,
                                          slot: nat, m: Message, rest': Bytes)
    requires Receive(s, slots, sofar) == Received(|got|, got, rest) && |got| == |sofar| + |slots|
    requires Unframe(rest, slot) == Whole(m, rest')
    ensures Receive(s, slots + [slot], sofar) == Received(|got| + 1, got + [m], rest')
    decreases |slots|
  {
    hide Unframe;
    CountExactly(s, slots, sofar);
    if slots == [] {
      assert slots + [slot] == [slot] && [slot][1..] == [];
    } else {
      var u := Unframe(s, slots[0]);
      assert (slots + [slot])[1..] == slots[1..] + [slot];
      ReceiveOneMore(u.rest, slots[1..], sofar + [u.m], rest, got, slot, m, rest');
    }
  }

  /** However the peer's messages are cut into pieces, a call that is not short of bytes
      gives the next of them, one for each slot it uses. */
  lemma MessagesArrive(ms: seq<Message>, slots: seq<nat>)
    requires AllFit(ms, slots)
    ensures var r, n := Receive(FrameAll(ms), slots, []), Min(|ms|, |slots|);
      r.count == n && r.got == ms[..n] && r.rest == FrameAll(ms[n..])
  {
    FramesComeBack(ms, slots, []);
    assert [] + ms[..Min(|ms|, |slots|)] == ms[..Min(|ms|, |slots|)];
  }

  // ----- the senders -----

  ghost predicate AllAddressed(ms: seq<Message>) {
    forall i | 0 <= i < |ms| :: Addressed(ms[i])
  }

  /** The length of the address a pointer leads to, or -1. */
  function AddrLength(addr: Bytes): int {
    if |addr| < 2 || EncodedLength(addr[0], addr[1]).None? then -1 else EncodedLength(addr[0], addr[1]).value
  }

  method SendMmsgTcp(ms: seq<Message>) returns (res: int, sent: Bytes)
    requires forall i | 0 <= i < |ms| :: AddrLength(ms[i].addr) > 0 ==> Addressed(ms[i])
    ensures ms != [] && AllAddressed(ms) ==> res == |ms| && sent == FrameAll(ms)
    ensures ms == [] || !AllAddressed(ms) ==> res == -1 && sent == []
  {
    hide Frame;
    sent := [];
    assert ms[..0] == [];
    for i := 0 to |ms|
      invariant sent == FrameAll(ms[..i]) && forall j | 0 <= j < i :: Addressed(ms[j])
    {
      var addrlen := AddrLength(ms[i].addr);
      if addrlen <= 0 {
        return -1, [];
      }
      var m := ms[i];
      var datlen, hdrlen: Byte := |m.data| % 0x1_0000, (3 + addrlen) % 256;
      FrameIs(m, datlen);
      FramesJoin(ms[..i], m);
      assert ms[..i] + [m] == ms[..i + 1];
      sent := sent + ([datlen / 256, datlen % 256, hdrlen] + m.addr + m.data);
    }
    assert ms[..|ms|] == ms;
    res := if ms == [] then -1 else |ms|;
  }

  lemma FrameIs(m: Message, datlen: nat)
    requires datlen == |m.data| % 0x1_0000
    ensures datlen / 256 == |m.data| / 256 % 256 && datlen % 256 == |m.data| % 256
    ensures Frame(m) == [datlen / 256, datlen % 256, (3 + |m.addr|) % 256] + m.addr + m.data
  {
    var x := |m.data|;
    assert x == x / 0x1_0000 * 0x1_0000 + datlen;
    assert x / 256 == x / 0x1_0000 * 256 + datlen / 256;
  }

  lemma {:induction false} FramesJoin(ms: seq<Message>, m: Message)
    ensures FrameAll(ms + [m]) == FrameAll(ms) + Frame(m)
  {
    hide Frame;
    if ms == [] {
      assert ms + [m] == [m] && [m][1..] == [] && FrameAll([]) == [];
      assert Frame(m) + [] == Frame(m);
    } else {
      assert (ms + [m])[1..] == ms[1..] + [m];
      FramesJoin(ms[1..], m);
      assert Frame(ms[0]) + (FrameAll(ms[1..]) + Frame(m)) == FrameAll(ms) + Frame(m);
    }
  }

  /** What recvmmsg gave, datagram by datagram: None for one that is too short. */
  method RecvMmsgUdp(datagrams: seq<Bytes>, slot: nat) returns (res: int, got: seq<Option<Message>>)
    ensures res == |datagrams| || res == -1
    ensures res == -1 <==> exists i :: 0 <= i < |datagrams| && Given(datagrams[i], slot).Wrong?
    ensures res >= 0 ==> |got| == res
    ensures res >= 0 ==> forall i | 0 <= i < res ::
      Given(datagrams[i], slot) == if got[i].Some? then Took(got[i].value) else Nothing
  {
    hide Given;
    got := [];
    for i := 0 to |datagrams|
      invariant |got| == i
      invariant forall j | 0 <= j < i :: Given(datagrams[j], slot) == if got[j].Some? then Took(got[j].value) else Nothing
    {
      var d := datagrams[i];
      var buf := d[..Min(|d|, slot)];
      var t := ReadDatagram(buf);
      GivenIs(d, slot);
      if t.Wrong? {
        return -1, got;
      }
      got := got + [if t.Nothing? then None else Some(t.m)];
    }
    res := |datagrams|;
  }

  /** What a datagram gives once the slot has cut it. */
  function Given(d: Bytes, slot: nat): Taken {
    Undatagram(d[..Min(|d|, slot)])
  }

  lemma GivenIs(d: Bytes, slot: nat)
    ensures Given(d, slot) == Undatagram(d[..Min(|d|, slot)])
  {
  }

  method ReadDatagram(buf: Bytes) returns (t: Taken)
    ensures t == Undatagram(buf)
  {
    if |buf| < 4 {
      return Nothing;
    }
    var second := if |buf| > 4 then buf[4] else 0;
    var addrlen := EncodedLength(buf[3], second);
    if addrlen.None? {
      return Wrong;
    }
    var doff := 3 + addrlen.value;
    if doff > |buf| {
      return Wrong;
    }
    t := Took(Message(buf[3..doff], buf[doff..]));
  }
}
