/** Either end of the SOCKS5 handshake against any peer whatever: which bytes make it return
    success, and what it writes. */
module SocksPeers {
  import opened ByteOrder
  import opened Options
  import opened SocksAddress
  import opened SocksEndpoints
  import opened SocksHandshake

  /** How an end returned, and all it wrote. */
  datatype Ended = Ended(verdict: Verdict, out: Bytes)

  /** An end whose peer writes these bytes and closes. */
  function Ends(e: End, input: Bytes): Ended
    decreases Left(e)
  {
    match ActOf(e)
    case Stop => Ended(if e.Over? then e.verdict else Verdict(false, None), [])
    case Put(bytes) =>
      Progress(e, []);
      var r := Ends(Sent(e), input);
      r.(out := bytes + r.out)
    case Take(n) =>
      Progress(e, if n <= |input| then input[..n] else []);
      if n <= |input| then Ends(Got(e, input[..n]), input[n..]) else Ends(Short(e), [])
  }

  const NO: Verdict := Verdict(false, None)

  lemma EndsPut(e: End, input: Bytes, w: Bytes)
    requires ActOf(e) == Put(w)
    ensures var r := Ends(Sent(e), input); Ends(e, input) == r.(out := w + r.out)
  {
  }

  lemma EndsTake(e: End, input: Bytes, n: nat)
    requires ActOf(e) == Take(n)
    ensures Ends(e, input) == if n <= |input| then Ends(Got(e, input[..n]), input[n..]) else Ends(Short(e), [])
  {
  }

  lemma EndsOver(v: Verdict, input: Bytes)
    ensures Ends(Over(v), input) == Ended(v, [])
  {
  }

  lemma Last(w: Bytes)
    ensures w + [] == w
  {
  }

  // ----- the server -----

  /** How much follows, by the byte at `i`. */
  function Span(w: Bytes, i: nat): nat
    requires i < |w|
  {
    w[i]
  }

  /** The one method a server takes: with a user name, if it has users. */
  function Wanted(s: Server): Byte {
    if s.users.Some? then 2 else 0
  }

  /** A greeting (section 3 of RFC 1928) that offers the method wanted. */
  predicate Greets(s: Server, w: Bytes) {
    |w| >= 2 && w[0] == 5 && |w| >= 2 + Span(w, 1) && Wanted(s) in w[2..2 + Span(w, 1)]
  }

  /** A login (section 2 of RFC 1929): a user and a password, neither empty, that are known. */
  predicate LogsIn(s: Server, w: Bytes) {
    && |w| >= 3 && w[0] == 1 && w[1] > 0 && |w| >= 3 + Span(w, 1)
    && var n := Span(w, 1);
    var p := Span(w, 2 + n);
    && p > 0 && |w| >= 3 + n + p
    && s.users.Some? && w[2..2 + n] in s.users.value && s.users.value[w[2..2 + n]] == w[3 + n..3 + n + p]
  }

  /** How long a login is: the lengths of both parts, and three bytes. */
  function LoginSpan(w: Bytes): nat {
    if |w| < 3 || |w| < 3 + Span(w, 1) then 0 else 3 + Span(w, 1) + Span(w, 2 + Span(w, 1))
  }

  /** How long the address is that starts with these bytes, if it is of a known type. */
  function AddressSpan(atype: Byte, second: Byte): nat {
    if atype == 1 then 7 else if atype == 4 then 19 else if atype == 3 then 4 + second else 0
  }

  /** A request (section 4 of RFC 1928), complete. */
  predicate Requests(w: Bytes) {
    |w| >= 5 && w[0] == 5 && AddressSpan(w[3], w[4]) > 0 && |w| >= 3 + AddressSpan(w[3], w[4])
  }

  /** What such a request asks for. */
  predicate Asking(w: Bytes, asked: Asked) {
    Requests(w) && asked.cmd == w[1] && Encode(asked.addr) == w[3..3 + AddressSpan(w[3], w[4])]
  }

  /** Any greeting: the method wanted, or 255 and the end. */
  lemma ServerGreeting(s: Server, w: Bytes)
    ensures Ends(S(s, ReadGreeting), w) ==
      if Greets(s, w) then
        var r := Ends(S(s, if s.users.Some? then ReadUserHead else ReadRequest), w[2 + Span(w, 1)..]);
        r.(out := [5, Wanted(s)] + r.out)
      else Ended(NO, [5, 255])
  {
    hide Ends;
    EndsTake(S(s, ReadGreeting), w, 2);
    EndsPut(S(s, WriteMethod(METHOD_DENY)), [], [VERSION, METHOD_DENY]);
    EndsOver(NO, []);
    Last([5, 255]);
    if |w| >= 2 {
      var rest := w[2..];
      EndsPut(S(s, WriteMethod(METHOD_DENY)), rest, [VERSION, METHOD_DENY]);
      EndsOver(NO, rest);
      if w[0] == 5 {
        var n := Span(w, 1);
        EndsTake(S(s, ReadMethods(n)), rest, n);
        if n <= |rest| {
          assert rest[..n] == w[2..2 + n] && rest[n..] == w[2 + n..];
          EndsPut(S(s, WriteMethod(METHOD_DENY)), rest[n..], [VERSION, METHOD_DENY]);
          EndsOver(NO, rest[n..]);
          EndsPut(S(s, WriteMethod(Wanted(s))), rest[n..], [VERSION, Wanted(s)]);
        }
      }
    }
  }

  lemma ServerRefuses(s: Server, rest: Bytes)
    ensures Ends(S(s, WriteUser(false)), rest) == Ended(NO, [1, 255])
  {
    hide Ends;
    EndsPut(S(s, WriteUser(false)), rest, [AUTH_VERSION, 255]);
    EndsOver(NO, rest);
    Last([1, 255]);
  }

  /** Any login: 0 if it is known, or 255 and the end. */
  lemma ServerLogin(s: Server, w: Bytes)
    ensures Ends(S(s, ReadUserHead), w) ==
      if LogsIn(s, w) then
        var r := Ends(S(s, ReadRequest), w[LoginSpan(w)..]);
        r.(out := [1, 0] + r.out)
      else Ended(NO, [1, 255])
  {
    hide Ends;
    EndsTake(S(s, ReadUserHead), w, 2);
    ServerRefuses(s, []);
    if |w| >= 2 {
      var rest := w[2..];
      ServerRefuses(s, rest);
      if w[0] == 1 && w[1] > 0 {
        ServerName(s, rest, Span(w, 1));
        var n := Span(w, 1);
        if |w| >= 3 + n {
          assert rest[..n] == w[2..2 + n] && rest[n] == w[2 + n];
          var p := Span(rest, n);
          if |w| >= 3 + n + p {
            assert rest[n + 1..n + 1 + p] == w[3 + n..3 + n + p] && rest[n + 1 + p..] == w[3 + n + p..];
          }
        }
      }
    }
  }

  /** From the user name on. */
  lemma ServerName(s: Server, w: Bytes, n: nat)
    requires 0 < n < 256
    ensures Ends(S(s, ReadUserName(n)), w) ==
      if |w| >= n + 1 && w[n] > 0 && |w| >= n + 1 + w[n] && Knows(s, w[..n], w[n + 1..n + 1 + w[n]]) then
        var r := Ends(S(s, ReadRequest), w[n + 1 + w[n]..]);
        r.(out := [1, 0] + r.out)
      else Ended(NO, [1, 255])
  {
    hide Ends, Knows;
    EndsTake(S(s, ReadUserName(n)), w, n + 1);
    ServerRefuses(s, []);
    if |w| >= n + 1 {
      var head, rest := w[..n + 1], w[n + 1..];
      ServerRefuses(s, rest);
      assert head[n] == w[n] && head[..n] == w[..n];
      var p := w[n];
      if p > 0 {
        EndsTake(S(s, ReadPassword(w[..n], p)), rest, p);
        if |rest| >= p {
          assert rest[..p] == w[n + 1..n + 1 + p] && rest[p..] == w[n + 1 + p..];
          ServerRefuses(s, rest[p..]);
          EndsPut(S(s, WriteUser(true)), rest[p..], [AUTH_VERSION, 0]);
        }
      }
    }
  }

  const NOWHERE: Bytes := [4, 0, 0, 0, 0, 0, 0, 0, 0, 0, 0, 0, 0, 0, 0, 0, 0, 0, 0]

  lemma ServerReplies(s: Server, rep: Byte, bound: Sock, asked: Option<Asked>, rest: Bytes)
    ensures Ends(S(s, WriteReply(rep, bound, asked)), rest) == Ended(Verdict(rep == SUCC, asked), ReplyOf(rep, bound))
  {
    hide Ends, ReplyOf;
    EndsPut(S(s, WriteReply(rep, bound, asked)), rest, ReplyOf(rep, bound));
    EndsOver(Verdict(rep == SUCC, asked), rest);
    Last(ReplyOf(rep, bound));
  }

  lemma ReplyNowhere(rep: Byte)
    ensures ReplyOf(rep, NO_SOCK) == [5, rep, 0] + NOWHERE
  {
    assert NO_SOCK.ip[..12][10] == 0 && MAPPED[10] == 255;
    assert FromSock(NO_SOCK) == V6(NO_SOCK.ip, NO_SOCK.port);
    assert Encode(V6(NO_SOCK.ip, NO_SOCK.port)) == [4] + NO_SOCK.ip + NO_SOCK.port;
  }

  /** Any request: one that is complete is answered as what it asks for comes about; 8 for an
      address that is not whole or of no known type, 1 for another version; and nothing for
      less than five bytes. */
  lemma ServerRequest(s: Server, w: Bytes) returns (asked: Asked)
    ensures var r := Ends(S(s, ReadRequest), w);
      && (Requests(w) ==> Asking(w, asked) && r.verdict == Verdict(Granted(s, asked), Some(asked)) && Answered(r.out, s, asked))
      && (!Requests(w) ==> r == Ended(NO, if |w| < 5 then [] else [5, if w[0] == 5 then 8 else 1, 0] + NOWHERE))
  {
    hide Ends, ReplyOf, Granted, Answered, Serve, Encode, Decode;
    asked := Asked(0, V4([0, 0, 0, 0], [0, 0]));
    EndsTake(S(s, ReadRequest), w, 5);
    EndsOver(NO, []);
    ReplyNowhere(1);
    ReplyNowhere(8);
    if |w| >= 5 {
      var head, rest := w[..5], w[5..];
      assert head[0] == w[0] && head[3] == w[3] && head[4] == w[4] && head[1] == w[1];
      ServerReplies(s, FAIL, NO_SOCK, None, rest);
      ServerReplies(s, ADDR, NO_SOCK, None, rest);
      ServerReplies(s, ADDR, NO_SOCK, None, []);
      var n := AddressSpan(w[3], w[4]);
      if w[0] == 5 && n > 0 {
        EndsTake(S(s, ReadAddress(head)), rest, n - 2);
        if |w| >= 3 + n {
          var a := head[3..] + rest[..n - 2];
          assert a == w[3..3 + n];
          asked := Asked(w[1], Decode(a));
          EncodeDecodes(a);
          ServesInFull(s, asked);
          var v := Serve(s, asked);
          ServerReplies(s, v.rep, v.bound, Some(asked), rest[n - 2..]);
        }
      }
    }
  }

  /** Against any peer, a server returns success if and only if it read a greeting that offers
      its method, a login it knows if it has users, and a request that it granted. */
  lemma ServerAcceptsExactly(s: Server, w: Bytes) returns (asked: Asked)
    ensures Ends(S(s, ReadGreeting), w).verdict.ok <==>
      && Greets(s, w)
      && var r := w[2 + Span(w, 1)..];
      && (s.users.Some? ==> LogsIn(s, r))
      && var q := if s.users.Some? then r[LoginSpan(r)..] else r;
      Asking(q, asked) && Granted(s, asked)
  {
    hide Ends, Greets, LogsIn, Requests, Granted, Answered, Encode;
    asked := Asked(0, V4([0, 0, 0, 0], [0, 0]));
    ServerGreeting(s, w);
    if Greets(s, w) {
      GreetingLength(s, w);
      var r := w[2 + Span(w, 1)..];
      if s.users.None? {
        asked := ServerRequest(s, r);
      } else {
        ServerLogin(s, r);
        if LogsIn(s, r) {
          LoginLength(s, r);
          asked := ServerRequest(s, r[LoginSpan(r)..]);
        }
      }
    }
  }

  lemma GreetingLength(s: Server, w: Bytes)
    requires Greets(s, w)
    ensures |w| >= 2 && |w| >= 2 + Span(w, 1)
  {
  }

  lemma LoginLength(s: Server, w: Bytes)
    requires LogsIn(s, w)
    ensures LoginSpan(w) <= |w|
  {
  }

  // ----- the client -----

  /** A success (section 6 of RFC 1928) with an address that the client accepts. */
  predicate Grants(c: Client, w: Bytes) {
    && |w| >= 4 && w[0] == 5 && w[1] == 0
    && ((w[3] == 1 && |w| >= 10 && c.accept(V4(w[4..8], w[8..10])))
        || (w[3] == 4 && |w| >= 22 && c.accept(V6(w[4..20], w[20..22]))))
  }

  /** No authentication asked for, or one that came out well, and then a success. */
  predicate Welcomes(c: Client, w: Bytes) {
    && |w| >= 2 && w[0] == 5
    && ((w[1] == 0 && Grants(c, w[2..])) || (w[1] == 2 && |w| >= 4 && w[2] == 1 && w[3] == 0 && Grants(c, w[4..])))
  }

  lemma ClientReply(c: Client, w: Bytes)
    ensures Ends(C(c, ReadReply), w) == Ended(Verdict(Grants(c, w), None), [])
  {
    hide Ends;
    EndsTake(C(c, ReadReply), w, 4);
    EndsOver(NO, []);
    if |w| >= 4 {
      var head, rest := w[..4], w[4..];
      assert head[0] == w[0] && head[1] == w[1] && head[3] == w[3];
      EndsOver(NO, rest);
      if w[0] == 5 && w[1] == 0 && (w[3] == 1 || w[3] == 4) {
        var n := if w[3] == 1 then 6 else 18;
        EndsTake(C(c, ReadBound(w[3])), rest, n);
        if |rest| >= n {
          var b := rest[..n];
          assert w[3] == 1 ==> b[..4] == w[4..8] && b[4..] == w[8..10];
          assert w[3] == 4 ==> b[..16] == w[4..20] && b[16..] == w[20..22];
          EndsOver(NO, rest[n..]);
          EndsOver(Verdict(true, None), rest[n..]);
        }
      }
    }
  }

  lemma ClientRequests(c: Client, w: Bytes)
    requires !c.pipeline
    ensures Ends(ToRequest(c), w) ==
      if KnownCommand(c) then Ended(Verdict(Grants(c, w), None), RequestOf(c)) else Ended(NO, [])
  {
    hide Ends, RequestOf, Grants;
    EndsOver(NO, w);
    if KnownCommand(c) {
      EndsPut(C(c, WriteRequest), w, RequestOf(c));
      ClientReply(c, w);
      Last(RequestOf(c));
    }
  }

  /** Reading the method chosen, when nothing was written ahead. */
  lemma ClientAfterMethods(c: Client, w: Bytes)
    requires !c.pipeline
    ensures var r := Ends(C(c, ReadMethod), w);
      && (r.verdict.ok <==> KnownCommand(c) && Welcomes(c, w))
      && (r.verdict.ok ==> r.out == (if w[1] == 2 then CredsOf(c) else []) + RequestOf(c))
  {
    hide Ends, RequestOf, CredsOf, Grants;
    EndsTake(C(c, ReadMethod), w, 2);
    EndsOver(NO, []);
    if |w| >= 2 {
      var rest := w[2..];
      EndsOver(NO, rest);
      ClientRequests(c, rest);
      NothingMore(RequestOf(c));
      if w[0] == 5 && w[1] == 2 {
        EndsPut(C(c, WriteCreds), rest, CredsOf(c));
        EndsTake(C(c, ReadCreds), rest, 2);
        if |rest| >= 2 {
          assert rest[2..] == w[4..];
          EndsOver(NO, w[4..]);
          ClientRequests(c, w[4..]);
        }
      }
    }
  }

  /** Reading all the answers, when everything was written ahead. */
  lemma ClientAfterAll(c: Client, w: Bytes)
    requires c.pipeline
    ensures Ends(C(c, ReadMethod), w) == Ended(Verdict(Welcomes(c, w), None), [])
  {
    hide Ends, Grants;
    EndsTake(C(c, ReadMethod), w, 2);
    EndsOver(NO, []);
    if |w| >= 2 {
      var rest := w[2..];
      EndsOver(NO, rest);
      ClientReply(c, rest);
      if w[0] == 5 && w[1] == 2 {
        EndsTake(C(c, ReadCreds), rest, 2);
        if |rest| >= 2 {
          assert rest[2..] == w[4..];
          EndsOver(NO, w[4..]);
          ClientReply(c, w[4..]);
        }
      }
    }
  }

  /** Against any peer, a client returns success if and only if it had a command to send and
      read a method it can follow, a login accepted if that was asked for, and a success with
      an address it accepts; it has then written all its messages. */
  lemma ClientAcceptsExactly(c: Client, w: Bytes)
    ensures var r := Ends(C(c, WriteMethods), w);
      && (r.verdict.ok <==> KnownCommand(c) && Welcomes(c, w))
      && (r.verdict.ok ==> r.out == MethodsOf(c) + ((if c.pipeline || w[1] == 2 then CredsOf(c) else []) + RequestOf(c)))
  {
    hide Ends, MethodsOf, RequestOf, CredsOf, Welcomes;
    EndsPut(C(c, WriteMethods), w, MethodsOf(c));
    if c.pipeline {
      EndsPut(C(c, WriteCreds), w, CredsOf(c));
      EndsOver(NO, w);
      if KnownCommand(c) {
        EndsPut(C(c, WriteRequest), w, RequestOf(c));
        ClientAfterAll(c, w);
        Last(RequestOf(c));
      }
    } else {
      ClientAfterMethods(c, w);
    }
  }

  /** The client's messages: one method, 2 with credentials and 0 without (section 3 of
      RFC 1928); both credentials with their lengths (section 2 of RFC 1929); a request
      (section 4 of RFC 1928). A server reads them back. */
  lemma ClientMessages(c: Client, s: Server)
    ensures MethodsOf(c) == [5, 1, if c.creds.Some? then 2 else 0]
    ensures Greets(s, MethodsOf(c)) <==> c.creds.Some? == s.users.Some?
    ensures c.creds.Some? ==> (LogsIn(s, CredsOf(c)) <==> s.users.Some? && Accepted(c, s))
    ensures Asking(RequestOf(c), Asked(c.cmd, c.addr)) && RequestOf(c)[2] == 0
  {
    hide Cut;
    GreetingRead(c, s);
    if c.creds.Some? { LoginRead(c, s); }
    DecodeEncodes(c.addr);
    var e, r := Encode(c.addr), RequestOf(c);
    assert r[3] == e[0] && r[4] == e[1] && r[3..] == e;
    assert r[3..3 + |e|] == e;
  }

  lemma GreetingRead(c: Client, s: Server)
    ensures Greets(s, MethodsOf(c)) <==> c.creds.Some? == s.users.Some?
  {
    var w := MethodsOf(c);
    assert w[2..2 + Span(w, 1)] == [w[2]];
  }

  lemma LoginRead(c: Client, s: Server)
    requires c.creds.Some?
    ensures LogsIn(s, CredsOf(c)) <==> s.users.Some? && Accepted(c, s)
  {
    var w, u, p := CredsOf(c), Cut(c.creds.value.user), Cut(c.creds.value.pass);
    hide Cut;
    assert w[0] == 1 && w[1] == |u| && w[2 + |u|] == |p| && |w| == 3 + |u| + |p|;
    assert w[2..2 + |u|] == u && w[3 + |u|..3 + |u| + |p|] == p;
  }
}
