/** The handshake between the repository's own client and server: how every run ends. */
module SocksHandshake {
  import opened ByteOrder
  import opened Options
  import opened SocksAddress
  import opened SocksEndpoints
  import opened SocksNetwork

  // ----- what should come of it -----

  /** Both ends mean the same method of authentication, and with credentials the server
      knows the user by that password. */
  ghost predicate Authorized(c: Client, s: Server) {
    c.creds.None? == s.users.None? && (c.creds.Some? ==> Accepted(c, s))
  }

  /** The server takes the credentials as the client's length bytes present them. */
  ghost predicate Accepted(c: Client, s: Server)
    requires c.creds.Some?
  {
    var u, p := Cut(c.creds.value.user), Cut(c.creds.value.pass);
    u != [] && p != [] && s.users.Some? && u in s.users.value && s.users.value[u] == p
  }

  /** CONNECT, UDP ASSOCIATE, or UDP through the connection itself. */
  predicate KnownCommand(c: Client) {
    c.cmd == 1 || c.cmd == 3 || c.cmd == 5
  }

  /** What was asked for came about: the address resolves, and the target was connected to,
      or the sockets for messages were bound. */
  predicate Granted(s: Server, asked: Asked) {
    var target := IntoSock(asked.addr, s.resolve);
    && target.Some?
    && ((asked.cmd == 1 && s.connect(target.value)) || (asked.cmd == 3 && s.associate(target.value).ok) || (asked.cmd == 5 && s.forward))
  }

  /** The socket address a reply tells: that of the socket bound, or that of the target. */
  function Told(s: Server, asked: Asked): Sock {
    match IntoSock(asked.addr, s.resolve)
    case None => Sock([0, 0, 0, 0, 0, 0, 0, 0, 0, 0, 0, 0, 0, 0, 0, 0], asked.addr.port)
    case Some(target) => if asked.cmd == 3 then s.associate(target).bound else target
  }

  /** A socket address on the wire: as IPv4 if it maps an IPv4 address, else as IPv6. */
  predicate Spelled(w: Bytes, sock: Sock) {
    if sock.ip[..12] == [0, 0, 0, 0, 0, 0, 0, 0, 0, 0, 255, 255] then w == [1] + sock.ip[12..] + sock.port
    else w == [4] + sock.ip + sock.port
  }

  /** The reply (section 6 of RFC 1928): 0 if the request was granted; otherwise 8 if its
      address did not resolve, 4 if the connection failed, 7 for an unknown command, and 1
      if binding failed. */
  predicate Answered(w: Bytes, s: Server, asked: Asked) {
    var target := IntoSock(asked.addr, s.resolve);
    && |w| > 3 && w[0] == 5 && w[2] == 0 && Spelled(w[3..], Told(s, asked))
    && (w[1] == 0 <==> Granted(s, asked))
    && (w[1] == 8 <==> target.None?)
    && (w[1] == 4 <==> target.Some? && asked.cmd == 1 && !s.connect(target.value))
    && (w[1] == 7 <==> target.Some? && asked.cmd !in {1, 3, 5})
    && (w[1] == 1 <==> target.Some? && asked.cmd in {3, 5} && !Granted(s, asked))
  }

  /** How the server's handshake returns. */
  ghost function ServerVerdict(c: Client, s: Server): Verdict {
    if !KnownCommand(c) || !Authorized(c, s) then Verdict(false, None)
    else Verdict(Granted(s, Asked(c.cmd, c.addr)), Some(Asked(c.cmd, c.addr)))
  }

  /** The client agrees, if it can also take the address in the reply. */
  ghost function ClientVerdict(c: Client, s: Server): Verdict {
    Verdict(ServerVerdict(c, s).ok && c.accept(FromSock(Told(s, Asked(c.cmd, c.addr)))), None)
  }

  function Start(c: Client, s: Server): Net {
    Calm(C(c, WriteMethods), S(s, ReadGreeting), [], [])
  }

  // ----- the server, stage by stage -----

  lemma GoTake(e: End, input: Bytes, n: nat)
    requires ActOf(e) == Take(n) && n <= |input|
    ensures Go(e, input) == Go(Got(e, input[..n]), input[n..])
  {
  }

  lemma GoPut(e: End, input: Bytes, w: Bytes)
    requires ActOf(e) == Put(w)
    ensures var g := Go(Sent(e), input); Go(e, input) == g.(out := w + g.out)
  {
  }

  lemma GoWait(e: End, input: Bytes, n: nat)
    requires ActOf(e) == Take(n) && n > |input|
    ensures Go(e, input) == Gone(e, [], input)
  {
  }

  lemma GoStop(v: Verdict, input: Bytes)
    ensures Go(Over(v), input) == Gone(Over(v), [], input)
  {
  }

  /** The greeting is answered with the method both ends mean, or refused. */
  lemma ServerGreeted(c: Client, s: Server)
    ensures Go(S(s, ReadGreeting), MethodsOf(c)) ==
      if c.creds.None? != s.users.None? then Gone(FAILED, [5, 255], [])
      else if s.users.None? then Gone(S(s, ReadRequest), [5, 0], [])
      else Gone(S(s, ReadUserHead), [5, 2], [])
  {
    hide Go;
    var i := MethodsOf(c);
    var m := if s.users.None? then METHOD_NONE else METHOD_USER;
    GoTake(S(s, ReadGreeting), i, 2);
    assert i[2..] == [i[2]] && i[2..][..1] == [i[2]] && i[2..][1..] == [];
    GoTake(S(s, ReadMethods(1)), i[2..], 1);
    var choice := if m == i[2] then m else METHOD_DENY;
    GoPut(S(s, WriteMethod(choice)), [], [VERSION, choice]);
    if choice == METHOD_DENY {
      GoStop(Verdict(false, None), []);
    } else if choice == METHOD_NONE {
      GoWait(S(s, ReadRequest), [], 5);
    } else {
      GoWait(S(s, ReadUserHead), [], 2);
    }
    assert [VERSION, choice] + [] == [VERSION, choice];
  }

  /** The credentials are judged as they are presented. */
  lemma ServerJudges(c: Client, s: Server) returns (rest: Bytes)
    requires c.creds.Some? && s.users.Some?
    ensures Go(S(s, ReadUserHead), CredsOf(c)) ==
      if Accepted(c, s) then Gone(S(s, ReadRequest), [1, 0], [])
      else Gone(FAILED, [1, 255], rest)
  {
    hide Go, Cut;
    var u, p := Cut(c.creds.value.user), Cut(c.creds.value.pass);
    var i := CredsOf(c);
    var i1, i2: Bytes := u + [|p|] + p, p;
    assert i == [AUTH_VERSION, |u|] + i1;
    assert i[..2] == [AUTH_VERSION, |u|] && i[2..] == i1;
    GoTake(S(s, ReadUserHead), i, 2);
    if u == [] {
      rest := i1;
      Refuses(s, rest);
    } else {
      assert i1[..|u| + 1] == u + [|p|] && i1[|u| + 1..] == p && (u + [|p|])[..|u|] == u;
      GoTake(S(s, ReadUserName(|u|)), i1, |u| + 1);
      if p == [] {
        rest := [];
        Refuses(s, rest);
      } else {
        rest := [];
        assert p[..|p|] == p && p[|p|..] == [];
        GoTake(S(s, ReadPassword(u, |p|)), p, |p|);
        if Knows(s, u, p) {
          GoPut(S(s, WriteUser(true)), [], [AUTH_VERSION, 0]);
          GoWait(S(s, ReadRequest), [], 5);
          assert [AUTH_VERSION, 0] + [] == [AUTH_VERSION, 0];
        } else {
          Refuses(s, rest);
        }
      }
    }
  }

  lemma Refuses(s: Server, rest: Bytes)
    ensures Go(S(s, WriteUser(false)), rest) == Gone(FAILED, [AUTH_VERSION, 255], rest)
  {
    hide Go;
    GoPut(S(s, WriteUser(false)), rest, [AUTH_VERSION, 255]);
    GoStop(Verdict(false, None), rest);
    assert [AUTH_VERSION, 255] + [] == [AUTH_VERSION, 255];
  }

  /** The request is read for exactly what it asks, the reply says what came of it, and the
      server returns success if and only if it was granted. */
  lemma ServerServes(c: Client, s: Server) returns (rep: Byte)
    ensures var asked := Asked(c.cmd, c.addr);
      var reply := ReplyOf(rep, Told(s, asked));
      && Go(S(s, ReadRequest), RequestOf(c)) == Gone(Over(Verdict(Granted(s, asked), Some(asked))), reply, [])
      && Answered(reply, s, asked) && (rep == SUCC <==> Granted(s, asked))
  {
    hide Go, Serve, ReplyOf, Decode, Granted, Told, Answered;
    var i, a, asked := RequestOf(c), Encode(c.addr), Asked(c.cmd, c.addr);
    DecodeEncodes(c.addr);
    ServesInFull(s, asked);
    var head, tail := i[..5], i[5..];
    assert head[3] == a[0] && head[4] == a[1] && head[3..] == a[..2] && tail == a[2..];
    assert head[3..] + tail == a;
    hide Encode;
    GoTake(S(s, ReadRequest), i, 5);
    assert tail[..|tail|] == tail && tail[|tail|..] == [];
    GoTake(S(s, ReadAddress(head)), tail, |tail|);
    var w := Serve(s, asked);
    rep := w.rep;
    var reply := ReplyOf(rep, w.bound);
    GoPut(S(s, w), [], reply);
    GoStop(Verdict(w.rep == SUCC, Some(asked)), []);
    assert reply + [] == reply;
  }

  lemma ServesInFull(s: Server, asked: Asked)
    ensures var w := Serve(s, asked);
      && w.WriteReply? && w.asked == Some(asked) && (w.rep == SUCC <==> Granted(s, asked))
      && w.bound == Told(s, asked) && Answered(ReplyOf(w.rep, w.bound), s, asked)
  {
    hide Encode, FromSock, Spelled;
    var w := Serve(s, asked);
    SpelledSo(w.bound);
    var r, e := ReplyOf(w.rep, w.bound), Encode(FromSock(w.bound));
    assert r == [5, w.rep, 0] + e && r[3..] == e;
  }

  lemma SpelledSo(sock: Sock)
    ensures Spelled(Encode(FromSock(sock)), sock)
  {
  }

  // ----- the client, stage by stage -----

  /** A success with an address it accepts is success, anything else is failure. */
  lemma ClientConcludes(c: Client, rep: Byte, bound: Sock)
    ensures var ok := rep == SUCC && c.accept(FromSock(bound));
      Go(C(c, ReadReply), ReplyOf(rep, bound)).end == Over(Verdict(ok, None))
      && (ok ==> Go(C(c, ReadReply), ReplyOf(rep, bound)) == Gone(Over(Verdict(true, None)), [], []))
      && Go(C(c, ReadReply), ReplyOf(rep, bound)).out == []
  {
    hide Go;
    var i, a := ReplyOf(rep, bound), FromSock(bound);
    assert i[..4] == [VERSION, rep, 0, Encode(a)[0]] && i[4..] == Encode(a)[1..];
    GoTake(C(c, ReadReply), i, 4);
    if rep != SUCC {
      GoStop(Verdict(false, None), i[4..]);
    } else {
      var tail := Encode(a)[1..];
      assert tail == (if a.V4? then a.ip4 + a.port else a.ip6 + a.port);
      assert tail[..|tail|] == tail && tail[|tail|..] == [];
      GoTake(C(c, ReadBound(Encode(a)[0])), tail, |tail|);
      if a.V4? { assert tail[..4] == a.ip4 && tail[4..] == a.port; } else { assert tail[..16] == a.ip6 && tail[16..] == a.port; }
      GoStop(Verdict(c.accept(a), None), []);
    }
  }

  // ----- the whole handshake -----

  /** Both ends have returned as they should, with nothing left over after success. */
  ghost predicate Settled(c: Client, s: Server, t: Net) {
    && t.client == Over(ClientVerdict(c, s)) && t.server == Over(ServerVerdict(c, s))
    && t.up.flying == [] && t.down.flying == []
    && (t.client.verdict.ok ==> t.up.arrived == [] && t.down.arrived == [])
  }

  lemma SettledIsStill(c: Client, s: Server, t: Net)
    requires Settled(c, s, t)
    ensures Still(t)
  {
  }

  /** From a request about to be written to the end. */
  lemma RequestPhase(c: Client, s: Server) returns (t: Net)
    requires KnownCommand(c) && Authorized(c, s)
    ensures Settled(c, s, t) && Reaches(Calm(C(c, ReadReply), S(s, ReadRequest), RequestOf(c), []), t)
  {
    hide Reaches, Go, Granted, Told, Answered, ReplyOf, RequestOf, Authorized;
    var bound := Told(s, Asked(c.cmd, c.addr));
    var rep := ServerServes(c, s);
    ServerGoes(C(c, ReadReply), S(s, ReadRequest), RequestOf(c), []);
    var reply := ReplyOf(rep, bound);
    assert [] + reply == reply;
    ClientConcludes(c, rep, bound);
    ClientGoes(C(c, ReadReply), Over(ServerVerdict(c, s)), [], reply);
    var g := Go(C(c, ReadReply), reply);
    t := Calm(g.end, Over(ServerVerdict(c, s)), [], g.rest);
    assert [] + g.out == [];
    ReachesThen(Calm(C(c, ReadReply), S(s, ReadRequest), RequestOf(c), []),
                Calm(C(c, ReadReply), Over(ServerVerdict(c, s)), [], reply), t);
  }

  /** A server whose client gave up before its request gives up as well. */
  lemma ServerGivesUp(c: Client, s: Server, down: Bytes) returns (t: Net)
    requires !KnownCommand(c)
    ensures Settled(c, s, t) && Reaches(Calm(FAILED, S(s, ReadRequest), [], down), t)
  {
    var n := Calm(FAILED, S(s, ReadRequest), [], down);
    t := Calm(FAILED, FAILED, [], down);
    NothingMore(n.down.flying);
    assert Step(n, ServerMoves) == Some(t);
    ReachesStep(n, ServerMoves);
  }

  /** One end after the other, each as far as it gets. */
  lemma Turns(n: Net, c: End, s: End, up: Bytes, down: Bytes)
    requires n == Calm(c, s, up, down)
    ensures var g := Go(c, down); Reaches(n, Calm(g.end, s, up + g.out, g.rest))
    ensures var g := Go(s, up); Reaches(n, Calm(c, g.end, g.rest, down + g.out))
  {
    ClientGoes(c, s, up, down);
    ServerGoes(c, s, up, down);
  }

  /** The client on its turn in standard mode. */
  lemma ClientStandard(c: Client)
    requires !c.pipeline
    ensures Go(C(c, WriteMethods), []) == Gone(C(c, ReadMethod), MethodsOf(c), [])
    ensures Go(C(c, ReadMethod), [VERSION, METHOD_DENY]) == Gone(FAILED, [], [])
    ensures Go(C(c, ReadMethod), [VERSION, METHOD_USER]) == Gone(C(c, ReadCreds), CredsOf(c), [])
    ensures Go(C(c, ReadCreds), [AUTH_VERSION, 255]) == Gone(FAILED, [], [])
    ensures var asks := if KnownCommand(c) then Gone(C(c, ReadReply), RequestOf(c), []) else Gone(FAILED, [], []);
      Go(C(c, ReadMethod), [VERSION, METHOD_NONE]) == asks && Go(C(c, ReadCreds), [AUTH_VERSION, 0]) == asks
  {
    hide Go, MethodsOf, CredsOf, RequestOf;
    GoPut(C(c, WriteMethods), [], MethodsOf(c));
    GoWait(C(c, ReadMethod), [], 2);
    Whole(VERSION, METHOD_DENY);
    Whole(VERSION, METHOD_USER);
    Whole(VERSION, METHOD_NONE);
    Whole(AUTH_VERSION, 255);
    Whole(AUTH_VERSION, 0);
    GoTake(C(c, ReadMethod), [VERSION, METHOD_DENY], 2);
    GoTake(C(c, ReadMethod), [VERSION, METHOD_USER], 2);
    GoTake(C(c, ReadMethod), [VERSION, METHOD_NONE], 2);
    GoTake(C(c, ReadCreds), [AUTH_VERSION, 255], 2);
    GoTake(C(c, ReadCreds), [AUTH_VERSION, 0], 2);
    GoStop(Verdict(false, None), []);
    GoPut(C(c, WriteCreds), [], CredsOf(c));
    GoWait(C(c, ReadCreds), [], 2);
    GoPut(C(c, WriteRequest), [], RequestOf(c));
    GoWait(C(c, ReadReply), [], 4);
    NothingMore(MethodsOf(c));
    NothingMore(CredsOf(c));
    NothingMore(RequestOf(c));
  }

  lemma Whole(a: Byte, b: Byte)
    ensures [a, b][..2] == [a, b] && [a, b][2..] == []
  {
  }

  lemma NothingMore(b: Bytes)
    ensures b + [] == b && [] + b == b
  {
  }

  lemma Standard(c: Client, s: Server) returns (t: Net)
    requires !c.pipeline
    ensures Settled(c, s, t) && Reaches(Start(c, s), t)
  {
    hide Go, MethodsOf, CredsOf, RequestOf, Reaches, Settled, Accepted;
    ClientStandard(c);
    ServerGreeted(c, s);
    NothingMore(MethodsOf(c));
    var none: Bytes := [];
    var a0, a1 := Start(c, s), Calm(C(c, ReadMethod), S(s, ReadGreeting), MethodsOf(c), none);
    Turns(a0, C(c, WriteMethods), S(s, ReadGreeting), none, none);
    var g := Go(S(s, ReadGreeting), MethodsOf(c));
    NothingMore(g.out);
    var a2 := Calm(C(c, ReadMethod), g.end, none, g.out);
    Turns(a1, C(c, ReadMethod), S(s, ReadGreeting), MethodsOf(c), none);
    ReachesThen(a0, a1, a2);
    t := StandardAuth(c, s, a2);
    ReachesThen(a0, a2, t);
  }

  lemma StandardAuth(c: Client, s: Server, a2: Net) returns (t: Net)
    requires !c.pipeline
    requires var g := Go(S(s, ReadGreeting), MethodsOf(c)); a2 == Calm(C(c, ReadMethod), g.end, [], g.out)
    ensures Settled(c, s, t) && Reaches(a2, t)
  {
    hide Go, MethodsOf, CredsOf, RequestOf, Reaches, Accepted;
    ClientStandard(c);
    ServerGreeted(c, s);
    NothingMore(RequestOf(c));
    NothingMore(CredsOf(c));
    var none: Bytes := [];
    var g := Go(S(s, ReadGreeting), MethodsOf(c));
    Turns(a2, C(c, ReadMethod), g.end, none, g.out);
    NothingMore(none);
    var h := Go(C(c, ReadMethod), g.out);
    var a3 := Calm(h.end, g.end, h.out, none);
    NothingMore(h.out);
    if c.creds.None? != s.users.None? {
      t := a3;
    } else if s.users.None? {
      if KnownCommand(c) {
        t := RequestPhase(c, s);
      } else {
        t := ServerGivesUp(c, s, none);
      }
      ReachesThen(a2, a3, t);
    } else {
      t := StandardCreds(c, s, a3);
      ReachesThen(a2, a3, t);
    }
  }

  lemma StandardCreds(c: Client, s: Server, a3: Net) returns (t: Net)
    requires !c.pipeline && c.creds.Some? && s.users.Some?
    requires a3 == Calm(C(c, ReadCreds), S(s, ReadUserHead), CredsOf(c), [])
    ensures Settled(c, s, t) && Reaches(a3, t)
  {
    hide Go, MethodsOf, CredsOf, RequestOf, Reaches, Accepted;
    ClientStandard(c);
    var rest := ServerJudges(c, s);
    var none: Bytes := [];
    Turns(a3, C(c, ReadCreds), S(s, ReadUserHead), CredsOf(c), none);
    var g := Go(S(s, ReadUserHead), CredsOf(c));
    NothingMore(g.out);
    var a4 := Calm(C(c, ReadCreds), g.end, g.rest, g.out);
    Turns(a4, C(c, ReadCreds), g.end, g.rest, g.out);
    var h := Go(C(c, ReadCreds), g.out);
    NothingMore(g.rest);
    NothingMore(h.out);
    var a5 := Calm(h.end, g.end, g.rest + h.out, none);
    ReachesThen(a3, a4, a5);
    if !Accepted(c, s) {
      t := a5;
    } else {
      if KnownCommand(c) {
        t := RequestPhase(c, s);
      } else {
        t := ServerGivesUp(c, s, none);
      }
      ReachesThen(a3, a5, t);
    }
  }

  // ----- pipeline mode -----

  /** What the client writes ahead, and where it then is. */
  lemma ClientAhead(c: Client)
    requires c.pipeline
    ensures Go(C(c, WriteMethods), []) == if KnownCommand(c)
      then Gone(C(c, ReadMethod), MethodsOf(c) + (CredsOf(c) + RequestOf(c)), [])
      else Gone(FAILED, MethodsOf(c) + (CredsOf(c) + []), [])
  {
    hide Go, MethodsOf, CredsOf, RequestOf;
    GoPut(C(c, WriteMethods), [], MethodsOf(c));
    GoPut(C(c, WriteCreds), [], CredsOf(c));
    GoPut(C(c, WriteRequest), [], RequestOf(c));
    GoWait(C(c, ReadMethod), [], 2);
    GoStop(Verdict(false, None), []);
    NothingMore(RequestOf(c));
  }

  /** The server faced with all of it at once. */
  lemma ServerAhead(c: Client, s: Server, more: Bytes) returns (rest: Bytes)
    ensures var m, r := if s.users.None? then METHOD_NONE else METHOD_USER, Go(S(s, ReadRequest), more);
      Go(S(s, ReadGreeting), MethodsOf(c) + (CredsOf(c) + more)) ==
        if c.creds.None? != s.users.None? then Gone(FAILED, [VERSION, METHOD_DENY], rest)
        else if s.users.None? then r.(out := [VERSION, m] + r.out)
        else if Accepted(c, s) then r.(out := [VERSION, m] + ([AUTH_VERSION, 0] + r.out))
        else Gone(FAILED, [VERSION, m] + [AUTH_VERSION, 255], rest)
  {
    hide Go, MethodsOf, CredsOf, Accepted;
    ServerGreeted(c, s);
    var i: Bytes := CredsOf(c) + more;
    GoJoin(S(s, ReadGreeting), MethodsOf(c), i);
    NothingMore(i);
    rest := i;
    GoStop(Verdict(false, None), i);
    NothingMore([VERSION, METHOD_DENY]);
    if c.creds.None? != s.users.None? {
    } else if s.users.None? {
      NoCreds(c);
      NothingMore(more);
    } else {
      var left := ServerJudges(c, s);
      GoJoin(S(s, ReadUserHead), CredsOf(c), more);
      NothingMore(more);
      if !Accepted(c, s) {
        rest := left + more;
        GoStop(Verdict(false, None), rest);
        NothingMore([AUTH_VERSION, 255]);
      }
    }
  }

  lemma NoCreds(c: Client)
    requires c.creds.None?
    ensures CredsOf(c) == []
  {
  }

  /** The client reading what came of it. */
  lemma ClientReads(c: Client, more: Bytes)
    requires c.pipeline
    ensures Go(C(c, ReadMethod), [VERSION, METHOD_DENY]) == Gone(FAILED, [], [])
    ensures Go(C(c, ReadMethod), [VERSION, METHOD_NONE] + more) == Go(C(c, ReadReply), more)
    ensures Go(C(c, ReadMethod), [VERSION, METHOD_USER] + ([AUTH_VERSION, 0] + more)) == Go(C(c, ReadReply), more)
    ensures Go(C(c, ReadMethod), [VERSION, METHOD_USER] + [AUTH_VERSION, 255]) == Gone(FAILED, [], [])
  {
    hide Go;
    Split(VERSION, METHOD_DENY, []);
    NothingMore([VERSION, METHOD_DENY]);
    GoTake(C(c, ReadMethod), [VERSION, METHOD_DENY], 2);
    GoStop(Verdict(false, None), []);
    Split(VERSION, METHOD_NONE, more);
    GoTake(C(c, ReadMethod), [VERSION, METHOD_NONE] + more, 2);
    Split(VERSION, METHOD_USER, [AUTH_VERSION, 0] + more);
    GoTake(C(c, ReadMethod), [VERSION, METHOD_USER] + ([AUTH_VERSION, 0] + more), 2);
    Split(AUTH_VERSION, 0, more);
    GoTake(C(c, ReadCreds), [AUTH_VERSION, 0] + more, 2);
    Split(VERSION, METHOD_USER, [AUTH_VERSION, 255]);
    GoTake(C(c, ReadMethod), [VERSION, METHOD_USER] + [AUTH_VERSION, 255], 2);
    Split(AUTH_VERSION, 255, []);
    NothingMore([AUTH_VERSION, 255]);
    GoTake(C(c, ReadCreds), [AUTH_VERSION, 255], 2);
  }

  lemma Split(a: Byte, b: Byte, more: Bytes)
    ensures ([a, b] + more)[..2] == [a, b] && ([a, b] + more)[2..] == more
  {
  }

  lemma Pipeline(c: Client, s: Server) returns (t: Net)
    requires c.pipeline
    ensures Settled(c, s, t) && Reaches(Start(c, s), t)
  {
    hide Go, MethodsOf, CredsOf, RequestOf, Reaches, Settled, Accepted;
    ClientAhead(c);
    var none: Bytes := [];
    var a0 := Start(c, s);
    Turns(a0, C(c, WriteMethods), S(s, ReadGreeting), none, none);
    var g := Go(C(c, WriteMethods), none);
    NothingMore(g.out);
    var a1 := Calm(g.end, S(s, ReadGreeting), g.out, none);
    if KnownCommand(c) {
      t := PipelineServed(c, s, a1);
    } else {
      t := PipelineGivenUp(c, s, a1);
    }
    ReachesThen(a0, a1, t);
  }

  lemma PipelineServed(c: Client, s: Server, a1: Net) returns (t: Net)
    requires c.pipeline && KnownCommand(c)
    requires a1 == Calm(C(c, ReadMethod), S(s, ReadGreeting), MethodsOf(c) + (CredsOf(c) + RequestOf(c)), [])
    ensures Settled(c, s, t) && Reaches(a1, t)
  {
    hide Go, MethodsOf, CredsOf, RequestOf, Reaches, Accepted, Granted, Told, Answered, ReplyOf;
    var none: Bytes := [];
    var i := MethodsOf(c) + (CredsOf(c) + RequestOf(c));
    var rest := ServerAhead(c, s, RequestOf(c));
    var rep := ServerServes(c, s);
    var bound := Told(s, Asked(c.cmd, c.addr));
    ClientReads(c, ReplyOf(rep, bound));
    ClientConcludes(c, rep, bound);
    Turns(a1, C(c, ReadMethod), S(s, ReadGreeting), i, none);
    var g := Go(S(s, ReadGreeting), i);
    NothingMore(g.out);
    var a2 := Calm(C(c, ReadMethod), g.end, g.rest, g.out);
    Turns(a2, C(c, ReadMethod), g.end, g.rest, g.out);
    var h := Go(C(c, ReadMethod), g.out);
    NothingMore(g.rest);
    t := Calm(h.end, g.end, g.rest + h.out, h.rest);
    ReachesThen(a1, a2, t);
  }

  lemma PipelineGivenUp(c: Client, s: Server, a1: Net) returns (t: Net)
    requires c.pipeline && !KnownCommand(c)
    requires a1 == Calm(FAILED, S(s, ReadGreeting), MethodsOf(c) + (CredsOf(c) + []), [])
    ensures Settled(c, s, t) && Reaches(a1, t)
  {
    hide Go, MethodsOf, CredsOf, RequestOf, Reaches, Accepted;
    var none: Bytes := [];
    var i := MethodsOf(c) + (CredsOf(c) + none);
    var rest := ServerAhead(c, s, none);
    GoWait(S(s, ReadRequest), none, 5);
    Turns(a1, FAILED, S(s, ReadGreeting), i, none);
    var g := Go(S(s, ReadGreeting), i);
    NothingMore(g.out);
    var a2 := Calm(FAILED, g.end, g.rest, g.out);
    if Authorized(c, s) {
      t := ServerGivesUp(c, s, g.out);
      ReachesThen(a1, a2, t);
    } else {
      t := a2;
    }
  }

  /** Every run of the handshake, in either mode, in whatever order reads, writes and
      bytes on the way come, ends with both ends returned as they should. */
  lemma HandshakeSettles(c: Client, s: Server) returns (t: Net)
    ensures EndsAt(Start(c, s), t) && Settled(c, s, t)
  {
    hide Reaches, Settled;
    if c.pipeline {
      t := Pipeline(c, s);
    } else {
      t := Standard(c, s);
    }
    SettledIsStill(c, s, t);
    AllEndThere(Start(c, s), t);
  }

  /** Whichever mode the client uses, both ends return the same. */
  lemma PipelineEndsAsStandard(c: Client, s: Server) returns (t: Net, t': Net)
    requires !c.pipeline
    ensures EndsAt(Start(c, s), t) && EndsAt(Start(c.(pipeline := true), s), t')
    ensures t.client == t'.client && t.server == t'.server
  {
    hide EndsAt, Granted, Told;
    t := HandshakeSettles(c, s);
    t' := HandshakeSettles(c.(pipeline := true), s);
  }

  /** With a user name and password of 1 to 255 bytes, the server judges exactly these. */
  lemma CredentialsArriveWhole(c: Client, s: Server)
    requires c.creds.Some?
    ensures var u, p := c.creds.value.user, c.creds.value.pass;
      && (Cut(u) == u <==> |u| <= 255) && (Cut(p) == p <==> |p| <= 255)
      && (1 <= |u| <= 255 && 1 <= |p| <= 255 ==>
          (Accepted(c, s) <==> s.users.Some? && u in s.users.value && s.users.value[u] == p))
  {
  }
}
