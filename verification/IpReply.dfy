/** Answering a DNS query packet with an IPv4 packet of its own: the query's headers turned
    around, new lengths, and a new header checksum. */
module IpReply {
  import opened ByteOrder
  import opened Options

  const DNS_PORT: nat := 53
  const UDP: nat := 17

  /** Two bytes, the high one first. */
  function Pair(high: Byte, low: Byte): nat {
    256 * high + low
  }

  function Field(packet: Bytes, at: nat): nat
    requires at + 2 <= |packet|
  {
    Pair(packet[at], packet[at + 1])
  }

  function HeaderLen(packet: Bytes): nat
    requires packet != []
  {
    packet[0] % 16 * 4
  }

  predicate IsIpv4UdpPort53(packet: Bytes) {
    && |packet| >= 20 && packet[0] / 16 == 4 && packet[9] == UDP
    && |packet| >= HeaderLen(packet) + 8 && Field(packet, HeaderLen(packet) + 2) == DNS_PORT
  }

  // ----- the checksum -----

  /** The plain sum of the 16-bit words. */
  function WordSum(h: Bytes): nat {
    if h == [] then 0 else if |h| == 1 then Pair(h[0], 0) else Pair(h[0], h[1]) + WordSum(h[2..])
  }

  /** Addition with the carry brought around, as RFC 1071 defines the checksum. */
  function OnesAdd(a: nat, b: nat): nat {
    if a + b >= 0x1_0000 then a + b - 0xffff else a + b
  }

  function OnesSum(h: Bytes): nat {
    if h == [] then 0 else if |h| == 1 then Pair(h[0], 0) else OnesAdd(Pair(h[0], h[1]), OnesSum(h[2..]))
  }

  /** Carries brought around until there are none. */
  function Fold(sum: nat): nat {
    if sum < 0x1_0000 then sum else Fold(sum % 0x1_0000 + sum / 0x1_0000)
  }

  /** What a folded sum is: the remainder by 65535, but 65535 for a multiple that is not 0. */
  lemma {:induction false} FoldIs(sum: nat)
    ensures Fold(sum) == if sum == 0 then 0 else (sum - 1) % 0xffff + 1
    decreases sum
  {
    if sum >= 0x1_0000 {
      var next := sum % 0x1_0000 + sum / 0x1_0000;
      FoldIs(next);
      assert sum - 1 == (next - 1) + sum / 0x1_0000 * 0xffff;
      ModMultiple(next - 1, sum / 0x1_0000);
    }
  }

  lemma {:induction false} ModMultiple(a: nat, k: nat)
    ensures (a + k * 0xffff) % 0xffff == a % 0xffff
  {
    if k > 0 {
      ModMultiple(a, k - 1);
      assert a + k * 0xffff == (a + (k - 1) * 0xffff) + 0xffff;
    }
  }

  lemma FoldOf(f: nat, k: nat)
    requires 1 <= f <= 0xffff
    ensures Fold(f + k * 0xffff) == f
  {
    FoldIs(f + k * 0xffff);
    ModMultiple(f - 1, k);
  }

  /** What is left out of a sum by folding it. */
  lemma FoldShape(sum: nat) returns (k: nat)
    requires sum > 0
    ensures 1 <= Fold(sum) <= 0xffff && sum == Fold(sum) + k * 0xffff
  {
    FoldIs(sum);
    k := (sum - 1) / 0xffff;
  }

  lemma FoldAdd(a: nat, b: nat)
    requires a < 0x1_0000
    ensures Fold(a + b) == OnesAdd(a, Fold(b)) < 0x1_0000
  {
    if b > 0 {
      var k := FoldShape(b);
      var f := Fold(b);
      if a + f <= 0xffff { FoldOf(a + f, k); } else { FoldOf(a + f - 0xffff, k + 1); }
    }
  }

  /** Adding up first and bringing the carries around later gives the same. */
  lemma {:induction false} FoldedSum(h: Bytes)
    ensures Fold(WordSum(h)) == OnesSum(h) < 0x1_0000
  {
    if |h| >= 2 {
      FoldedSum(h[2..]);
      FoldAdd(Pair(h[0], h[1]), WordSum(h[2..]));
    }
  }

  lemma {:induction false} WordSumPut(h: Bytes, k: nat, v: nat)
    requires k % 2 == 0 && k + 1 < |h| && h[k] == 0 && h[k + 1] == 0 && v < 0x1_0000
    ensures WordSum(h[k := v / 256][k + 1 := v % 256]) == WordSum(h) + v
  {
    var t := h[k := v / 256][k + 1 := v % 256];
    if k == 0 {
      assert t[2..] == h[2..];
    } else {
      assert t[2..] == h[2..][k - 2 := v / 256][k - 1 := v % 256];
      WordSumPut(h[2..], k - 2, v);
    }
  }

  lemma FoldNone()
    ensures Fold(0) == 0
  {
  }

  /** The complement of the sum, put in its place, makes the sum all ones. */
  lemma Completes(h: Bytes, k: nat)
    requires k % 2 == 0 && k + 1 < |h| && h[k] == 0 && h[k + 1] == 0
    ensures Fold(WordSum(h)) < 0x1_0000
    ensures var v := 0xffff - Fold(WordSum(h)); OnesSum(h[k := v / 256][k + 1 := v % 256]) == 0xffff
  {
    hide Fold, OnesSum, WordSum;
    FoldedSum(h);
    FoldNone();
    var carries: nat := 0;
    if WordSum(h) > 0 { carries := FoldShape(WordSum(h)); }
    var v := 0xffff - Fold(WordSum(h));
    WordSumPut(h, k, v);
    FoldedSum(h[k := v / 256][k + 1 := v % 256]);
    FoldOf(0xffff, carries);
  }

  method CalculateIpChecksum(packet: array<Byte>, headerLen: nat)
    requires 12 <= headerLen <= packet.Length
    modifies packet
    ensures OnesSum(packet[..headerLen]) == 0xffff
    ensures forall k | 0 <= k < packet.Length && k != 10 && k != 11 :: packet[k] == old(packet[k])
  {
    packet[10], packet[11] := 0, 0;
    ghost var h: Bytes := packet[..headerLen];
    var sum: nat, i: nat := 0, 0;
    while i < headerLen - 1
      invariant i <= headerLen && i % 2 == 0 && sum + WordSum(h[i..]) == WordSum(h)
    {
      assert h[i..][2..] == h[i + 2..];
      var word := Pair(packet[i], packet[i + 1]);
      sum := sum + word;
      i := i + 2;
    }
    if i < headerLen {
      sum := sum + Pair(packet[i], 0);
    }
    assert sum == WordSum(h);
    while sum / 0x1_0000 > 0
      invariant Fold(sum) == Fold(WordSum(h))
      decreases sum
    {
      sum := sum % 0x1_0000 + sum / 0x1_0000;
    }
    Completes(h, 10);
    sum := 0xffff - sum;
    packet[10], packet[11] := sum / 256, sum % 256;
    assert packet[..headerLen] == h[10 := sum / 256][11 := sum % 256];
  }

  // ----- the reply -----

  /** Ports turned around, the length right, no checksum (which IPv4 allows). */
  predicate UdpTurned(r: Bytes, query: Bytes, n: nat, size: nat)
    requires n + 8 <= |query| && n + 8 <= |r|
  {
    && Field(r, n) == Field(query, n + 2) && Field(r, n + 2) == Field(query, n)
    && Field(r, n + 4) == (8 + size) % 0x1_0000 && Field(r, n + 6) == 0
  }

  /** The packet for an answer: the query's addresses and ports turned around, lengths and
      checksum right, and the rest of the headers as they were. */
  ghost predicate Replies(r: Bytes, query: Bytes, answer: Bytes)
    requires |query| >= 20
  {
    var n := HeaderLen(query);
    && 20 <= n && n + 8 <= |query| && |r| == n + 8 + |answer| && r[n + 8..] == answer
    && r[12..16] == query[16..20] && r[16..20] == query[12..16]
    && UdpTurned(r, query, n, |answer|) && Field(r, 2) == |r| % 0x1_0000
    && OnesSum(r[..n]) == 0xffff
    && r[..2] == query[..2] && r[4..10] == query[4..10] && r[20..n] == query[20..n]
  }

  method CraftIpv4UdpResponse(query: Bytes, ipHeaderLen: nat, answer: Bytes) returns (response: array<Byte>)
    requires IsIpv4UdpPort53(query) && ipHeaderLen == HeaderLen(query) >= 20
    ensures fresh(response) && Replies(response[..], query, answer)
  {
    hide Turned, UdpTurned, IsIpv4UdpPort53, OnesSum;
    QueryLength(query);
    var n := ipHeaderLen;
    response := TurnHeader(query, n, n + 8 + |answer|);
    ghost var header: Bytes := response[..n];
    TurnAround(response, n, |answer|, query);
    assert response[..n] == header;
    ghost var before: Bytes := response[..n + 8];
    CopyPayload(response, n + 8, answer);
    SamePorts(before, response[..], query, n, |answer|);
    assert response[..n] == header by { assert before[..n] == header && response[..n + 8][..n] == response[..n]; }
    ghost var unsummed: Bytes := response[..];
    CalculateIpChecksum(response, n);
    PortsKept(unsummed, response[..], query, n, |answer|);
    Finished(response[..], header, query, answer);
  }

  /** The query's headers in a new packet, with its length and addresses. */
  method TurnHeader(query: Bytes, n: nat, total: nat) returns (response: array<Byte>)
    requires 20 <= n && n + 8 <= |query| && n + 8 <= total
    ensures fresh(response) && response.Length == total
    ensures Turned(response[..n], query, total) && response[n..n + 8] == query[n..n + 8]
  {
    response := new Byte[total](_ => 0);
    for k := 0 to n + 8
      invariant forall j | 0 <= j < k :: response[j] == query[j]
    {
      response[k] := query[k];
    }
    response[2] := total / 256 % 256;
    response[3] := total % 256;
    SwapAddresses(response);
  }

  /** Which byte stands at `j` after `i` bytes of the addresses were exchanged. */
  function Exchanged(j: nat, i: nat): nat {
    if 12 <= j < 12 + i then j + 4 else if 16 <= j < 16 + i then j - 4 else j
  }

  method SwapAddresses(response: array<Byte>)
    requires response.Length >= 20
    modifies response
    ensures forall j | 0 <= j < response.Length :: response[j] == old(response[..])[Exchanged(j, 4)]
  {
    ghost var o: Bytes := response[..];
    for i := 0 to 4
      invariant forall j | 0 <= j < response.Length :: response[j] == o[Exchanged(j, i)]
    {
      var tmp := response[12 + i];
      response[12 + i] := response[16 + i];
      response[16 + i] := tmp;
    }
  }

  method CopyPayload(response: array<Byte>, at: nat, answer: Bytes)
    requires at + |answer| == response.Length
    modifies response
    ensures response[at..] == answer && response[..at] == old(response[..at])
  {
    for k := 0 to |answer|
      invariant response[at..at + k] == answer[..k] && response[..at] == old(response[..at])
    {
      response[at + k] := answer[k];
    }
    assert answer[..|answer|] == answer;
  }

  /** The UDP header of the reply: ports turned around, its length, no checksum. */
  method TurnAround(response: array<Byte>, n: nat, size: nat, ghost query: Bytes)
    requires n + 8 <= response.Length && n + 8 <= |query| && response[n..n + 8] == query[n..n + 8]
    modifies response
    ensures forall j | 0 <= j < response.Length && !(n <= j < n + 8) :: response[j] == old(response[j])
    ensures UdpTurned(response[..n + 8], query, n, size)
  {
    assert response[n..n + 8][0] == query[n..n + 8][0] && response[n..n + 8][1] == query[n..n + 8][1];
    assert response[n..n + 8][2] == query[n..n + 8][2] && response[n..n + 8][3] == query[n..n + 8][3];
    var udpLen := 8 + size;
    response[n + 4] := udpLen / 256 % 256;
    response[n + 5] := udpLen % 256;
    var sp0, sp1 := response[n], response[n + 1];
    response[n] := response[n + 2];
    response[n + 1] := response[n + 3];
    response[n + 2] := sp0;
    response[n + 3] := sp1;
    response[n + 6] := 0;
    response[n + 7] := 0;
    LowBytes(udpLen);
  }

  lemma QueryLength(query: Bytes)
    requires IsIpv4UdpPort53(query)
    ensures |query| >= 20 && HeaderLen(query) + 8 <= |query|
  {
  }

  lemma SamePorts(before: Bytes, r: Bytes, query: Bytes, n: nat, size: nat)
    requires n + 8 <= |query| && |before| == n + 8 <= |r| && r[..n + 8] == before && UdpTurned(before, query, n, size)
    ensures UdpTurned(r, query, n, size)
  {
    assert forall j | 0 <= j < n + 8 :: r[j] == before[j];
  }

  lemma PortsKept(o: Bytes, r: Bytes, query: Bytes, n: nat, size: nat)
    requires 20 <= n && n + 8 <= |query| && n + 8 <= |r| == |o| && UdpTurned(o, query, n, size)
    requires forall k | 0 <= k < |r| && k != 10 && k != 11 :: r[k] == o[k]
    ensures UdpTurned(r, query, n, size) && r[n + 8..] == o[n + 8..]
  {
  }

  lemma LowBytes(x: nat)
    ensures Pair(x / 256 % 256, x % 256) == x % 0x1_0000
  {
  }

  /** The IP header turned around, before its checksum. */
  ghost predicate Turned(header: Bytes, query: Bytes, total: nat)
    requires 20 <= |header| <= |query|
  {
    && header[2] == total / 256 % 256 && header[3] == total % 256
    && forall j | 0 <= j < |header| && j != 2 && j != 3 && j != 10 && j != 11 :: header[j] == query[Exchanged(j, 4)]
  }

  /** The pieces of a reply, put together. */
  lemma Finished(r: Bytes, header: Bytes, query: Bytes, answer: Bytes)
    requires IsIpv4UdpPort53(query) && |header| == HeaderLen(query) >= 20 && |r| == |header| + 8 + |answer|
    requires r[|header| + 8..] == answer
    requires Turned(header, query, |r|)
    requires forall j | 0 <= j < |header| && j != 10 && j != 11 :: r[j] == header[j]
    requires OnesSum(r[..|header|]) == 0xffff && UdpTurned(r, query, |header|, |answer|)
    ensures Replies(r, query, answer)
  {
    var n := |header|;
    LowBytes(|r|);
    assert r[12..16] == query[16..20] && r[16..20] == query[12..16];
    assert r[..2] == query[..2] && r[4..10] == query[4..10] && r[20..n] == query[20..n];
  }

  // ----- the whole exchange -----

  /** The answer when there is none: the query with QR set and RCODE 2, if it has a header. */
  method CreateServfailResponse(request: Bytes) returns (response: Bytes)
    ensures Failure(response, request)
  {
    if |request| < 12 {
      return request;
    }
    response := request;
    response := response[2 := response[2] % 0x80 + 0x80];
    response := response[3 := response[3] / 16 * 16 + 2];
  }

  /** A response with the server's failure (section 4.1.1 of RFC 1035): nothing else of the
      request is changed, and one too short for a header is not changed at all. */
  predicate Failure(r: Bytes, request: Bytes) {
    && |r| == |request|
    && (|r| < 12 ==> r == request)
    && (|r| >= 12 ==>
        && r[2] >= 0x80 && r[2] % 0x80 == request[2] % 0x80
        && r[3] % 16 == 2 && r[3] / 16 == request[3] / 16
        && forall k | 0 <= k < |r| && k != 2 && k != 3 :: r[k] == request[k])
  }

  /** Nothing for an empty payload; otherwise a packet with what the resolver gave, or else
      a failure. */
  method HandleDnsRequest(packet: Bytes, resolved: Option<Bytes>) returns (r: array?<Byte>)
    requires IsIpv4UdpPort53(packet) && HeaderLen(packet) >= 20
    ensures r == null <==> |packet| == HeaderLen(packet) + 8
    ensures r != null ==>
      var at := HeaderLen(packet) + 8;
      && fresh(r) && at <= r.Length && Replies(r[..], packet, r[at..])
      && match resolved { case Some(answer) => r[at..] == answer case None => Failure(r[at..], packet[at..]) }
  {
    QueryLength(packet);
    var ipHeaderLen := HeaderLen(packet);
    var at := ipHeaderLen + 8;
    if |packet| - at <= 0 {
      return null;
    }
    var request := packet[at..];
    var answer: Bytes;
    if resolved.Some? { answer := resolved.value; } else { answer := CreateServfailResponse(request); }
    r := CraftIpv4UdpResponse(packet, ipHeaderLen, answer);
    AnswerIs(r[..], packet, answer);
  }

  lemma AnswerIs(r: Bytes, query: Bytes, answer: Bytes)
    requires |query| >= 20 && Replies(r, query, answer)
    ensures HeaderLen(query) + 8 <= |r| && r[HeaderLen(query) + 8..] == answer
  {
    hide OnesSum, Field;
  }

  /** A query is told by version 4, protocol 17, and destination port 53 behind a header as
      long as its first byte says. */
  lemma QueryToldExactly(packet: Bytes)
    ensures IsIpv4UdpPort53(packet) <==>
      && |packet| >= 20 && 0x40 <= packet[0] <= 0x4f && packet[9] == 17
      && var n := 4 * (packet[0] - 0x40);
      |packet| >= n + 8 && packet[n + 2] == 0 && packet[n + 3] == 53
  {
  }

  /** What goes back is an IPv4 packet with UDP from port 53, to where the query came from. */
  lemma ReplyFromPort53(r: Bytes, query: Bytes, answer: Bytes)
    requires IsIpv4UdpPort53(query) && Replies(r, query, answer)
    ensures var n := HeaderLen(query);
      && 20 <= n && n + 8 <= |r| && n + 8 <= |query| && r[0] / 16 == 4 && r[9] == 17
      && r[n] == 0 && r[n + 1] == 53 && r[n + 2] == query[n] && r[n + 3] == query[n + 1]
      && r[12..16] == query[16..20] && r[16..20] == query[12..16]
  {
    hide OnesSum;
    assert r[..2][0] == query[..2][0] && r[4..10][5] == query[4..10][5];
  }

  lemma Lengths(r: Bytes, query: Bytes, answer: Bytes)
    requires |query| >= 20 && Replies(r, query, answer)
    ensures var n := HeaderLen(query);
      20 <= n && |r| == n + 8 + |answer| && Field(r, 2) == |r| % 0x1_0000 && Field(r, n + 4) == (8 + |answer|) % 0x1_0000
  {
    hide OnesSum, Field, HeaderLen;
  }

  /** The two length fields say how long the packet is just when it fits 16 bits. */
  lemma LengthsExactly(r: Bytes, query: Bytes, answer: Bytes)
    requires |query| >= 20 && Replies(r, query, answer)
    ensures var n := HeaderLen(query);
      20 <= n && n + 8 <= |r| && ((Field(r, 2) == |r| && Field(r, n + 4) == |r| - n) <==> |r| < 0x1_0000)
  {
    hide Replies, OnesSum, Field, HeaderLen;
    Lengths(r, query, answer);
  }

  /** Turning around twice gives back the addresses and the ports. */
  lemma TurnedTwice(r: Bytes, r': Bytes, query: Bytes, a: Bytes, b: Bytes)
    requires |query| >= 20 && Replies(r, query, a) && |r| >= 20 && Replies(r', r, b)
    ensures var n := HeaderLen(query);
      20 <= n && n + 8 <= |query| && n + 8 <= |r'| && HeaderLen(r) == n && r'[12..20] == query[12..20]
      && Field(r', n) == Field(query, n) && Field(r', n + 2) == Field(query, n + 2)
  {
    hide OnesSum, Field, HeaderLen;
    SameHeaderLen(r, query);
    assert r'[12..20] == r'[12..16] + r'[16..20] && query[12..20] == query[12..16] + query[16..20];
  }

  lemma SameHeaderLen(r: Bytes, query: Bytes)
    requires |r| >= 2 && |query| >= 2 && r[..2] == query[..2]
    ensures HeaderLen(r) == HeaderLen(query)
  {
    assert r[..2][0] == query[..2][0];
  }

  /** An answer of 65508 bytes, to a query whose header has no options: the packet is 65536
      bytes long and says that it has none. */
  lemma LongReplyWrong(r: Bytes, query: Bytes, answer: Bytes)
    requires |query| >= 20 && Replies(r, query, answer) && HeaderLen(query) == 20 && |answer| == 65508
    ensures |r| == 0x1_0000 && Field(r, 2) == 0
  {
  }
}
